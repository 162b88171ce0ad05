/**
 The emission journal: a transactional recorder with nested LIFO tokens.  While no failure is
 recorded, its contents equal the replay of the retained calls (`log`); `saved` holds the log
 at every open checkpoint.  Failures are sticky, and work and history charges never decrease.
 Finalization hands control to a boundary mapper, which may call the journal again.
 */
module Journals {
  import opened Transfers
  import opened EmissionLogs
  import opened Options

  datatype JournalState = Recording | Ready | Incomplete | Invalid | Closed
  datatype Reason = NoFailure | UnsupportedOperation | InvalidGraph | ResourceLimit

  datatype JournalLimits = JournalLimits(events: int, spans: int, transactions: int, work: int)

  const DEFAULT_JOURNAL_LIMITS := JournalLimits(262144, 262144, 1024, 8388608)

  /** An opaque LIFO token. */
  datatype Mark = Mark(owner: EmissionJournal?, serial: nat, depth: nat)

  const NO_MARK := Mark(null, 0, 0)

  datatype Checkpoint = Saved(mark: Mark, cursor: int, events: int, spans: int, gaps: int)

  datatype JournalResult = JournalResult(
    state: JournalState, reason: Reason, work: int, events: nat, spans: nat, eventHistory: int, spanHistory: int)

  datatype JournalEvent = JournalEvent(kind: ObservationKind, effect: Effect, writes: nat, start: int, end: int)

  /** The effect stored with observations that have none. */
  const NO_EFFECT := Effect(Copy, Location(GP, 0, 0), Location(GP, 0, 0), 0, 0)

  /** One call of the journal's interface. */
  datatype Call =
    | DoBegin(start: int) | DoAbort(at: int) | DoEnd(end: int)
    | DoEffect(effect: Effect) | DoWrites(mask: nat) | DoGap
    | DoCheckpoint(at: int) | DoCommit(mark: Mark) | DoRollback(mark: Mark, at: int) | DoAbandon(mark: Mark)
    | DoFinalize(oldLen: int, finalLen: int, mapper: Mapper) | DoClose
    | DoResult | DoEvent(index: int)

  /** How a boundary mapper ends, once it has made its own calls. */
  datatype Answer = Mapped(next: int) | Refused | Panicked

  datatype Response = Response(calls: seq<Call>, answer: Answer)

  /** No mapper stands for the identity. */
  type Mapper = Option<int -> Response>

  predicate Mutates(c: Call) {
    !c.DoResult? && !c.DoEvent?
  }

  /** The call hands back a token. */
  predicate Closes(c: Call) {
    c.DoCommit? || c.DoRollback? || c.DoAbandon?
  }

  predicate Records(c: Call) {
    c.DoBegin? || c.DoAbort? || c.DoEnd? || c.DoEffect? || c.DoWrites? || c.DoGap?
  }

  predicate ReadsOnly(calls: seq<Call>) {
    forall i :: 0 <= i < |calls| ==> !Mutates(calls[i])
  }

  /** Zero takes the default, a positive limit is capped by it, and a negative one is left to be refused. */
  predicate LimitFor(l: int, d: int, r: int) {
    if l == 0 then r == d else if l < 0 then r == l else r <= l && r <= d && (r == l || r == d)
  }

  /** An observation with the boundaries of its span. */
  function EventOf(o: Observation, spans: seq<Span>): JournalEvent {
    if 0 <= o.span < |spans| then JournalEvent(o.kind, o.effect, o.writes, spans[o.span].start, spans[o.span].end)
    else JournalEvent(o.kind, o.effect, o.writes, 0, 0)
  }

  function Clamp(l: int, d: int): int {
    if l == 0 then d else if l < d then l else d
  }

  /** The checkpoint describes the replay of the log saved with it. */
  predicate Describes(c: Checkpoint, log: seq<Emit>) {
    && Proper(log) && !Open(log)
    && var r := Replay(log);
       c.cursor == r.cursor && c.events == |r.events| && c.spans == |r.spans| && c.gaps == r.gaps
  }

  /** Where a boundary goes, when the mapper answers and leaves the journal alone. */
  function Image(mapper: Mapper, x: int): Option<int> {
    match mapper
    case None => Some(x)
    case Some(f) => if f(x).answer.Mapped? && ReadsOnly(f(x).calls) then Some(f(x).answer.next) else None
  }

  /** Maps every recorded span to a nonempty one within the final length, ending exactly there. */
  ghost predicate Coherent(mapper: Mapper, spans: seq<Span>, oldLen: int, finalLen: int) {
    && Image(mapper, oldLen) == Some(finalLen)
    && forall i :: 0 <= i < |spans| ==> SpanCoherent(mapper, spans[i], finalLen)
  }

  predicate SpanCoherent(mapper: Mapper, s: Span, finalLen: int) {
    && Image(mapper, s.start).Some? && Image(mapper, s.end).Some?
    && 0 <= Image(mapper, s.start).value < Image(mapper, s.end).value <= finalLen
  }

  /** Nonempty spans, end to end, inside [0, length] and finishing at its end. */
  ghost predicate Contiguous(spans: seq<Span>, length: int) {
    && (forall i :: 0 <= i < |spans| ==> 0 <= spans[i].start < spans[i].end <= length)
    && (forall i :: 0 < i < |spans| ==> spans[i - 1].end == spans[i].start)
    && (spans != [] ==> spans[|spans| - 1].end == length)
  }

  /* ---------- Tokens ---------- */

  /** The open tokens are the journal's own, numbered by depth, with increasing serials. */
  ghost predicate Stacked(open: seq<Mark>, owner: EmissionJournal, serial: nat) {
    && (forall i :: 0 <= i < |open| ==>
          open[i].owner == owner && open[i].depth == i + 1 && 0 < open[i].serial <= serial)
    && (forall i, j :: 0 <= i < j < |open| ==> open[i].serial < open[j].serial)
  }

  function MarksOf(transactions: seq<Checkpoint>): seq<Mark> {
    seq(|transactions|, i requires 0 <= i < |transactions| => transactions[i].mark)
  }

  /** How one call changes the open tokens: not at all, closes the newest or all, or opens a newer one. */
  ghost predicate TokenStep(t: seq<Mark>, serial: nat, t': seq<Mark>, serial': nat) {
    || (serial' == serial && (t' == t || t' == [] || (t != [] && t' == t[..|t| - 1])))
    || (|t'| == |t| + 1 && t'[..|t|] == t && t'[|t|].serial == serial' == serial + 1)
  }

  lemma MarksPop(transactions: seq<Checkpoint>)
    requires transactions != []
    ensures var n := |transactions| - 1;
            && |MarksOf(transactions)| == |transactions| && MarksOf(transactions)[n] == transactions[n].mark
            && MarksOf(transactions[..n]) == MarksOf(transactions)[..n]
  {
  }

  lemma MarksPush(transactions: seq<Checkpoint>, c: Checkpoint)
    ensures MarksOf(transactions + [c]) == MarksOf(transactions) + [c.mark]
  {
  }

  lemma StackedEmpty(owner: EmissionJournal, serial: nat)
    ensures Stacked(MarksOf([]), owner, serial)
  {
  }

  lemma StackedPop(transactions: seq<Checkpoint>, owner: EmissionJournal, serial: nat)
    requires Stacked(MarksOf(transactions), owner, serial) && transactions != []
    ensures Stacked(MarksOf(transactions[..|transactions| - 1]), owner, serial)
    ensures var m := transactions[|transactions| - 1].mark; m.owner == owner && m.depth == |transactions|
  {
    MarksPop(transactions);
  }

  lemma StackedPush(transactions: seq<Checkpoint>, owner: EmissionJournal, serial: nat, c: Checkpoint)
    requires Stacked(MarksOf(transactions), owner, serial) && c.mark == Mark(owner, serial + 1, |transactions| + 1)
    ensures Stacked(MarksOf(transactions + [c]), owner, serial + 1)
  {
    MarksPush(transactions, c);
  }

  /* ---------- Open checkpoints and the open emission ---------- */

  /** Every open checkpoint describes its saved log; saved logs are nested. */
  ghost predicate TransactionsOk(transactions: seq<Checkpoint>, saved: seq<seq<Emit>>, log: seq<Emit>) {
    && |saved| == |transactions|
    && (forall i :: 0 <= i < |saved| ==> Describes(transactions[i], saved[i]) && saved[i] <= log)
    && (forall i, j :: 0 <= i < j < |saved| ==> saved[i] <= saved[j])
  }

  /** The bookkeeping of the open emission, which began after every open checkpoint. */
  ghost predicate ActiveOk(active: bool, activeEvents: int, activeGaps: int, log: seq<Emit>, saved: seq<seq<Emit>>) {
    && Proper(log)
    && (active <==> Open(log))
    && (active ==> var r := Replay(log[..OpenAt(log)]); activeEvents == |r.events| && activeGaps == r.gaps)
    && (active ==> forall i :: 0 <= i < |saved| ==> |saved[i]| <= OpenAt(log))
  }

  lemma TransactionsGrowLog(transactions: seq<Checkpoint>, saved: seq<seq<Emit>>, log: seq<Emit>, e: Emit)
    requires TransactionsOk(transactions, saved, log)
    ensures TransactionsOk(transactions, saved, log + [e])
    ensures forall i :: 0 <= i < |saved| ==> |saved[i]| <= |log|
  {
  }

  lemma TransactionsPush(transactions: seq<Checkpoint>, saved: seq<seq<Emit>>, log: seq<Emit>, c: Checkpoint)
    requires TransactionsOk(transactions, saved, log)
    requires Describes(c, log)
    ensures TransactionsOk(transactions + [c], saved + [log], log)
  {
  }

  lemma TransactionsPop(transactions: seq<Checkpoint>, saved: seq<seq<Emit>>, log: seq<Emit>)
    requires TransactionsOk(transactions, saved, log) && transactions != []
    ensures |saved| == |transactions|
    ensures var n := |transactions| - 1;
            && TransactionsOk(transactions[..n], saved[..n], log)
            && TransactionsOk(transactions[..n], saved[..n], saved[n])
            && Describes(transactions[n], saved[n]) && saved[n] <= log
  {
  }

  lemma TransactionsTruncateLog(transactions: seq<Checkpoint>, saved: seq<seq<Emit>>, log: seq<Emit>, n: nat)
    requires TransactionsOk(transactions, saved, log) && n <= |log|
    requires forall i :: 0 <= i < |saved| ==> |saved[i]| <= n
    ensures TransactionsOk(transactions, saved, log[..n])
  {
    forall i | 0 <= i < |saved| ensures saved[i] <= log[..n] {
      assert log[..|saved[i]|] == saved[i];
      assert log[..n][..|saved[i]|] == log[..|saved[i]|];
    }
  }

  lemma ActiveBasics(active: bool, activeEvents: int, activeGaps: int, log: seq<Emit>, saved: seq<seq<Emit>>)
    requires ActiveOk(active, activeEvents, activeGaps, log, saved)
    ensures Proper(log) && (active <==> Open(log))
  {
  }

  lemma ActiveIdle(activeEvents: int, activeGaps: int, log: seq<Emit>, saved: seq<seq<Emit>>, saved': seq<seq<Emit>>)
    requires ActiveOk(false, activeEvents, activeGaps, log, saved)
    ensures ActiveOk(false, activeEvents, activeGaps, log, saved')
  {
  }

  lemma ActiveBegins(c: Contents, log: seq<Emit>, saved: seq<seq<Emit>>)
    requires Matches(c, log) && !Open(log) && forall i :: 0 <= i < |saved| ==> |saved[i]| <= |log|
    ensures Proper(log + [Begin(c.cursor)])
    ensures ActiveOk(true, |c.events|, c.gaps, log + [Begin(c.cursor)], saved)
  {
    MatchesBegin(c, log);
  }

  lemma ActiveObserves(
    c: Contents, activeEvents: int, activeGaps: int, log: seq<Emit>, saved: seq<seq<Emit>>,
    kind: ObservationKind, effect: Effect, writes: nat)
    requires Matches(c, log) && ActiveOk(true, activeEvents, activeGaps, log, saved)
    ensures Proper(log + [Observe(kind, effect, writes)])
    ensures ActiveOk(true, activeEvents, activeGaps, log + [Observe(kind, effect, writes)], saved)
  {
    MatchesObserve(c, log, kind, effect, writes);
  }

  lemma ActiveEnds(
    c: Contents, activeEvents: int, activeGaps: int, log: seq<Emit>, saved: seq<seq<Emit>>, end: int)
    requires Matches(c, log) && ActiveOk(true, activeEvents, activeGaps, log, saved) && end > c.cursor
    ensures Proper(log + [End(end)])
    ensures ActiveOk(false, activeEvents, activeGaps, log + [End(end)], saved)
  {
    MatchesEnd(c, log, end);
  }

  lemma ActiveAborts(c: Contents, activeEvents: int, activeGaps: int, log: seq<Emit>, saved: seq<seq<Emit>>)
    requires Matches(c, log) && ActiveOk(true, activeEvents, activeGaps, log, saved)
    ensures Proper(log) && Open(log) && Proper(log[..OpenAt(log)])
    ensures 0 <= activeEvents <= |c.events| && |c.spans| > 0
    ensures Matches(Contents(c.events[..activeEvents], c.spans[..|c.spans| - 1], c.cursor, activeGaps),
                    log[..OpenAt(log)])
    ensures ActiveOk(false, activeEvents, activeGaps, log[..OpenAt(log)], saved)
    ensures forall i :: 0 <= i < |saved| ==> |saved[i]| <= OpenAt(log)
  {
    MatchesAbort(c, log);
  }

  lemma ActiveAfterRollback(activeEvents: int, activeGaps: int, log: seq<Emit>, saved: seq<seq<Emit>>, c: Checkpoint)
    requires Describes(c, log)
    ensures Proper(log) && ActiveOk(false, activeEvents, activeGaps, log, saved)
  {
  }

  lemma DescribesNow(c: Checkpoint, now: Contents, log: seq<Emit>)
    requires Matches(now, log) && !Open(log)
    requires c.cursor == now.cursor && c.events == |now.events| && c.spans == |now.spans| && c.gaps == now.gaps
    ensures Describes(c, log)
  {
  }

  lemma RollbackContents(c: Checkpoint, now: Contents, log: seq<Emit>, earlier: seq<Emit>)
    requires Matches(now, log) && Describes(c, earlier) && earlier <= log
    ensures 0 <= c.events <= |now.events| && 0 <= c.spans <= |now.spans|
    ensures Matches(Contents(now.events[..c.events], now.spans[..c.spans], c.cursor, c.gaps), earlier)
    ensures Contents(now.events[..c.events], now.spans[..c.spans], c.cursor, c.gaps) == Replay(earlier)
  {
    MatchesRollback(now, log, earlier);
  }

  class EmissionJournal {
    const limits: JournalLimits
    var events: seq<Observation>
    var spans: seq<Span>
    var transactions: seq<Checkpoint>
    var cursor: int
    var gaps: int
    var work: int
    var eventHistory: int
    var spanHistory: int
    var serial: nat
    var activeEvents: int
    var activeGaps: int
    var active: bool
    var sealed: bool
    var finalizing: bool
    var closed: bool
    var reason: Reason

    /** The retained recording calls, and the log at each open checkpoint. */
    ghost var log: seq<Emit>
    ghost var saved: seq<seq<Emit>>
    /** The length and the mapper of the finalization. */
    ghost var length: int
    ghost var sealer: Mapper

    /** What holds while recording without failure. */
    ghost predicate Faithful()
      reads this
    {
      && Matches(Contents(events, spans, cursor, gaps), log)
      && TransactionsOk(transactions, saved, log)
      && |transactions| <= limits.transactions
      && ActiveOk(active, activeEvents, activeGaps, log, saved)
      && 0 <= work <= limits.work
      && |events| <= eventHistory <= limits.events && |spans| <= spanHistory <= limits.spans
    }

    /** What holds after a successful finalization. */
    ghost predicate Final()
      reads this
    {
      && Proper(log) && !Open(log) && !active && transactions == []
      && events == Replay(log).events && gaps == Replay(log).gaps && |spans| == |Replay(log).spans|
      && Contiguous(spans, length) && AreImages(sealer, Replay(log).spans, spans)
    }

    /** What holds after Close. */
    ghost predicate Emptied()
      reads this
    {
      && events == [] && spans == [] && transactions == [] && cursor == gaps == 0
      && log == [] && saved == [] && !active && !sealed && !finalizing
    }

    ghost predicate Valid()
      reads this
    {
      && Stacked(MarksOf(transactions), this, serial)
      && (closed ==> Emptied())
      && (finalizing ==> !sealed && !active && transactions == [])
      && (reason.NoFailure? && !closed && !finalizing ==> if sealed then Final() else Faithful())
    }

    ghost predicate Live()
      reads this
    {
      reason.NoFailure? && !closed && !sealed && !finalizing
    }

    /** Common to all calls: charges and serials only grow, and the first failure stays. */
    twostate predicate Advanced()
      reads this
    {
      && work >= old(work) && eventHistory >= old(eventHistory) && spanHistory >= old(spanHistory)
      && serial >= old(serial)
      && (!old(reason).NoFailure? ==> reason == old(reason))
      && (old(closed) ==> closed)
      && finalizing == old(finalizing)
    }

    /** Everything that finalization leaves alone. */
    twostate predicate SameLog()
      reads this
    {
      && events == old(events) && transactions == old(transactions) && cursor == old(cursor) && gaps == old(gaps)
      && eventHistory == old(eventHistory) && spanHistory == old(spanHistory) && serial == old(serial)
      && activeEvents == old(activeEvents) && activeGaps == old(activeGaps) && active == old(active)
      && closed == old(closed) && log == old(log) && saved == old(saved)
    }

    twostate predicate SameBook()
      reads this
    {
      && SameLog() && sealed == old(sealed) && finalizing == old(finalizing)
      && length == old(length) && sealer == old(sealer)
    }

    /** A refused call leaves at most a charge and a failure. */
    twostate predicate ContentsKept()
      reads this
    {
      SameBook() && spans == old(spans)
    }

    /** A call made by the mapper leaves at most a failure. */
    twostate predicate Untouched()
      reads this
    {
      ContentsKept() && work == old(work)
    }

    constructor (l: JournalLimits)
      ensures Valid() && log == [] && saved == [] && work == 0 && serial == 0 && transactions == []
      ensures !closed && !sealed && !finalizing
      ensures reason.NoFailure? <==> l.events >= 0 && l.spans >= 0 && l.transactions >= 0 && l.work >= 0
      ensures reason.NoFailure? ==> Live() && Faithful()
      ensures !reason.NoFailure? ==> reason == InvalidGraph
      ensures eventHistory == 0 && spanHistory == 0
      ensures LimitFor(l.events, 262144, limits.events) && LimitFor(l.spans, 262144, limits.spans)
      ensures LimitFor(l.transactions, 1024, limits.transactions) && LimitFor(l.work, 8388608, limits.work)
    {
      var d := DEFAULT_JOURNAL_LIMITS;
      limits := JournalLimits(Clamp(l.events, d.events), Clamp(l.spans, d.spans),
                              Clamp(l.transactions, d.transactions), Clamp(l.work, d.work));
      events, spans, transactions := [], [], [];
      cursor, gaps, work, eventHistory, spanHistory, serial := 0, 0, 0, 0, 0, 0;
      activeEvents, activeGaps := 0, 0;
      active, sealed, finalizing, closed := false, false, false, false;
      reason := if l.events < 0 || l.spans < 0 || l.transactions < 0 || l.work < 0 then InvalidGraph else NoFailure;
      log, saved, length, sealer := [], [], 0, None;
    }

    method Fail(r: Reason)
      requires !r.NoFailure?
      modifies this`reason
      ensures reason == if old(reason).NoFailure? then r else old(reason)
    {
      if reason.NoFailure? { reason := r; }
    }

    /** Admits a recording call; calling a closed, finalized or finalizing journal is itself a failure. */
    method Admit() returns (ok: bool)
      modifies this`reason
      ensures ok <==> old(Live())
      ensures ok ==> reason == old(reason)
      ensures !ok ==> !reason.NoFailure? && reason == if old(reason).NoFailure? then InvalidGraph else old(reason)
    {
      if closed || sealed || finalizing { Fail(InvalidGraph); }
      ok := reason.NoFailure? && !closed && !sealed && !finalizing;
    }

    method Charge(n: nat) returns (ok: bool)
      requires reason.NoFailure?
      modifies this`reason, this`work
      ensures ok <==> old(work) + n <= limits.work
      ensures if ok then work == old(work) + n && reason == old(reason)
              else work == old(work) && reason == ResourceLimit
    {
      if n > limits.work - work {
        Fail(ResourceLimit);
        return false;
      }
      work := work + n;
      ok := true;
    }

    /** Admission and the unit charge that open every recording call. */
    method Enter() returns (ok: bool)
      requires Valid()
      modifies this`reason, this`work
      ensures Valid() && Advanced() && ContentsKept()
      ensures ok <==> old(Live()) && old(work) < limits.work
      ensures ok ==> Live() && Faithful() && work == old(work) + 1
      ensures !ok ==> !reason.NoFailure?
      ensures !old(Live()) ==> Untouched()
      ensures !ok && old(reason).NoFailure? ==> reason == if !old(Live()) then InvalidGraph else ResourceLimit
    {
      ok := Admit();
      if ok {
        ok := Charge(1);
      }
    }

    method BeginEmission(start: int) returns (ok: bool)
      requires Valid()
      modifies this
      ensures Valid() && Advanced()
      ensures ok <==>
        && old(Live()) && old(work) < limits.work && !old(active) && start == old(cursor)
        && old(spanHistory) < limits.spans
      ensures ok ==> Live() && log == old(log) + [Begin(start)] && saved == old(saved)
      ensures ok ==> transactions == old(transactions) && serial == old(serial)
      ensures !ok ==> !reason.NoFailure? && ContentsKept()
      ensures old(finalizing) ==> Untouched()
      ensures ok ==> work == old(work) + 1 && spanHistory == old(spanHistory) + 1 && eventHistory == old(eventHistory)
      ensures !ok && old(reason).NoFailure? ==>
        reason == if !old(Live()) then InvalidGraph else if old(work) >= limits.work then ResourceLimit
                  else if old(active) || start != old(cursor) then InvalidGraph else ResourceLimit
    {
      hide Matches, TransactionsOk, ActiveOk, Describes, Final, Proper, Replay, Open, OpenAt, Stacked;
      ok := Enter();
      if !ok { return; }
      ActiveBasics(active, activeEvents, activeGaps, log, saved);
      if active || start != cursor || start < 0 {
        if !active { MatchesBegin(Contents(events, spans, cursor, gaps), log); }
        Fail(InvalidGraph);
        return false;
      }
      if spanHistory == limits.spans {
        Fail(ResourceLimit);
        return false;
      }
      OpenSpan(start);
    }

    method OpenSpan(start: int)
      requires Faithful() && !active && start == cursor && spanHistory < limits.spans
      modifies this`spanHistory, this`spans, this`activeEvents, this`activeGaps, this`active, this`log
      ensures Faithful() && log == old(log) + [Begin(start)] && spanHistory == old(spanHistory) + 1
    {
      hide Matches, TransactionsOk, ActiveOk, Describes, Proper, Replay, Open, OpenAt;
      ActiveBasics(active, activeEvents, activeGaps, log, saved);
      MatchesBegin(Contents(events, spans, cursor, gaps), log);
      TransactionsGrowLog(transactions, saved, log, Begin(start));
      ActiveBegins(Contents(events, spans, cursor, gaps), log, saved);
      spanHistory := spanHistory + 1;
      spans := spans + [Span(start, start)];
      activeEvents, activeGaps := |events|, gaps;
      active := true;
      log := log + [Begin(start)];
    }

    /** Drops the open emission: the log loses everything since its Begin. */
    method AbortEmission(truncatedCursor: int) returns (ok: bool)
      requires Valid()
      modifies this
      ensures Valid() && Advanced()
      ensures ok <==> old(Live()) && old(active) && truncatedCursor == old(cursor)
                      && old(work + 2 + |events| - activeEvents) <= limits.work
      ensures ok ==> Proper(old(log)) && Open(old(log)) && log == old(log)[..OpenAt(old(log))]
      ensures ok ==> Live() && saved == old(saved) && transactions == old(transactions) && serial == old(serial)
      ensures !ok ==> !reason.NoFailure? && ContentsKept()
      ensures old(finalizing) ==> Untouched()
      ensures ok ==> work == old(work + 2 + |events| - activeEvents) && spanHistory == old(spanHistory) && eventHistory == old(eventHistory)
      ensures !ok && old(reason).NoFailure? ==>
        reason == if !old(Live()) then InvalidGraph else if old(work) >= limits.work then ResourceLimit
                  else if !old(active) || truncatedCursor != old(cursor) then InvalidGraph else ResourceLimit
    {
      hide Matches, TransactionsOk, ActiveOk, Describes, Final, Proper, Replay, Open, OpenAt, Stacked;
      ghost var now := Contents(events, spans, cursor, gaps);
      if Live() && active { ActiveAborts(now, activeEvents, activeGaps, log, saved); }
      ok := Enter();
      if !ok { return; }
      if !active || truncatedCursor != cursor {
        Fail(InvalidGraph);
        return false;
      }
      ok := Charge(|events| - activeEvents + 1);
      if !ok { return; }
      DropSpan();
    }

    method DropSpan()
      requires Faithful() && active
      modifies this`events, this`spans, this`gaps, this`active, this`log
      ensures Faithful() && !active
      ensures Proper(old(log)) && Open(old(log)) && log == old(log)[..OpenAt(old(log))]
    {
      hide Matches, TransactionsOk, ActiveOk, Describes, Proper, Replay, Open, OpenAt;
      ActiveAborts(Contents(events, spans, cursor, gaps), activeEvents, activeGaps, log, saved);
      ghost var n := OpenAt(log);
      TransactionsTruncateLog(transactions, saved, log, n);
      events := events[..activeEvents];
      spans := spans[..|spans| - 1];
      gaps, active := activeGaps, false;
      log := log[..n];
    }

    method EndEmission(end: int) returns (ok: bool)
      requires Valid()
      modifies this
      ensures Valid() && Advanced()
      ensures ok <==> old(Live()) && old(work) < limits.work && old(active) && end > old(cursor)
      ensures ok ==> Live() && log == old(log) + [End(end)] && saved == old(saved)
      ensures ok ==> transactions == old(transactions) && serial == old(serial)
      ensures !ok ==> !reason.NoFailure? && ContentsKept()
      ensures old(finalizing) ==> Untouched()
      ensures ok ==> work == old(work) + 1 && spanHistory == old(spanHistory) && eventHistory == old(eventHistory)
      ensures !ok && old(reason).NoFailure? ==>
        reason == if !old(Live()) then InvalidGraph else if old(work) >= limits.work then ResourceLimit
                  else InvalidGraph
    {
      hide Matches, TransactionsOk, ActiveOk, Describes, Final, Proper, Replay, Open, OpenAt, Stacked;
      ok := Enter();
      if !ok { return; }
      if !active || end <= cursor {
        Fail(InvalidGraph);
        return false;
      }
      EndSpan(end);
    }

    method EndSpan(end: int)
      requires Faithful() && active && end > cursor
      modifies this`spans, this`cursor, this`active, this`log
      ensures Faithful() && log == old(log) + [End(end)]
    {
      hide Matches, TransactionsOk, ActiveOk, Describes, Proper, Replay, Open, OpenAt;
      ActiveBasics(active, activeEvents, activeGaps, log, saved);
      MatchesEnd(Contents(events, spans, cursor, gaps), log, end);
      TransactionsGrowLog(transactions, saved, log, End(end));
      ActiveEnds(Contents(events, spans, cursor, gaps), activeEvents, activeGaps, log, saved, end);
      spans := spans[|spans| - 1 := spans[|spans| - 1].(end := end)];
      cursor, active := end, false;
      log := log + [End(end)];
    }

    method Append(kind: ObservationKind, effect: Effect, writes: nat) returns (ok: bool)
      requires Valid()
      modifies this
      ensures Valid() && Advanced()
      ensures ok <==>
        old(Live()) && old(work) < limits.work && old(active) && old(eventHistory) < limits.events
      ensures ok ==> Live() && log == old(log) + [Observe(kind, effect, writes)] && saved == old(saved)
      ensures ok ==> transactions == old(transactions) && serial == old(serial)
      ensures !ok ==> !reason.NoFailure? && ContentsKept()
      ensures old(finalizing) ==> Untouched()
      ensures ok ==> work == old(work) + 1 && spanHistory == old(spanHistory) && eventHistory == old(eventHistory) + 1
      ensures !ok && old(reason).NoFailure? ==>
        reason == if !old(Live()) then InvalidGraph else if old(work) >= limits.work then ResourceLimit
                  else if !old(active) then InvalidGraph else ResourceLimit
    {
      hide Matches, TransactionsOk, ActiveOk, Describes, Final, Proper, Replay, Open, OpenAt, Stacked;
      ok := Enter();
      if !ok { return; }
      if !active {
        Fail(InvalidGraph);
        return false;
      }
      if eventHistory == limits.events {
        Fail(ResourceLimit);
        return false;
      }
      AddEvent(kind, effect, writes);
    }

    method AddEvent(kind: ObservationKind, effect: Effect, writes: nat)
      requires Faithful() && active && eventHistory < limits.events
      modifies this`eventHistory, this`events, this`gaps, this`log
      ensures Faithful() && log == old(log) + [Observe(kind, effect, writes)] && eventHistory == old(eventHistory) + 1
    {
      hide Matches, TransactionsOk, ActiveOk, Describes, Proper, Replay, Open, OpenAt;
      ghost var now := Contents(events, spans, cursor, gaps);
      ActiveBasics(active, activeEvents, activeGaps, log, saved);
      MatchesObserve(now, log, kind, effect, writes);
      TransactionsGrowLog(transactions, saved, log, Observe(kind, effect, writes));
      ActiveObserves(now, activeEvents, activeGaps, log, saved, kind, effect, writes);
      eventHistory := eventHistory + 1;
      events := events + [Observation(kind, effect, writes, |spans| - 1)];
      if kind.GapSeen? { gaps := gaps + 1; }
      log := log + [Observe(kind, effect, writes)];
    }

    method ObserveEffect(e: Effect) returns (ok: bool)
      requires Valid()
      modifies this
      ensures Valid() && Advanced()
      ensures ok <==> EffectValid(e)
                      && old(Live()) && old(work) < limits.work && old(active) && old(eventHistory) < limits.events
      ensures ok ==> Live() && log == old(log) + [Observe(EffectSeen, e, 0)] && saved == old(saved)
      ensures ok ==> transactions == old(transactions) && serial == old(serial)
      ensures !ok ==> !reason.NoFailure? && ContentsKept()
      ensures old(finalizing) ==> Untouched()
      ensures ok ==> work == old(work) + 1 && spanHistory == old(spanHistory) && eventHistory == old(eventHistory) + 1
      ensures !ok && old(reason).NoFailure? ==>
        reason == if !EffectValid(e) || !old(Live()) then InvalidGraph else if old(work) >= limits.work then ResourceLimit
                  else if !old(active) then InvalidGraph else ResourceLimit
    {
      hide Faithful, Final, Stacked;
      var good := MachineEffect(e);
      if !good {
        Fail(InvalidGraph);
        return false;
      }
      ok := Append(EffectSeen, e, 0);
    }

    method ObserveGPWrites(mask: nat) returns (ok: bool)
      requires Valid()
      modifies this
      ensures Valid() && Advanced()
      ensures ok <==> mask != 0
                      && old(Live()) && old(work) < limits.work && old(active) && old(eventHistory) < limits.events
      ensures ok ==> Live() && log == old(log) + [Observe(GPWritesSeen, NO_EFFECT, mask)] && saved == old(saved)
      ensures ok ==> transactions == old(transactions) && serial == old(serial)
      ensures !ok ==> !reason.NoFailure? && ContentsKept()
      ensures old(finalizing) ==> Untouched()
      ensures ok ==> work == old(work) + 1 && spanHistory == old(spanHistory) && eventHistory == old(eventHistory) + 1
      ensures !ok && old(reason).NoFailure? ==>
        reason == if mask == 0 || !old(Live()) then InvalidGraph else if old(work) >= limits.work then ResourceLimit
                  else if !old(active) then InvalidGraph else ResourceLimit
    {
      hide Faithful, Final, Stacked;
      if mask == 0 {
        Fail(InvalidGraph);
        return false;
      }
      ok := Append(GPWritesSeen, NO_EFFECT, mask);
    }

    method ObserveGap() returns (ok: bool)
      requires Valid()
      modifies this
      ensures Valid() && Advanced()
      ensures ok <==> old(Live()) && old(work) < limits.work && old(active) && old(eventHistory) < limits.events
      ensures ok ==> Live() && log == old(log) + [Observe(GapSeen, NO_EFFECT, 0)] && saved == old(saved)
      ensures ok ==> transactions == old(transactions) && serial == old(serial)
      ensures !ok ==> !reason.NoFailure? && ContentsKept()
      ensures old(finalizing) ==> Untouched()
      ensures ok ==> work == old(work) + 1 && spanHistory == old(spanHistory) && eventHistory == old(eventHistory) + 1
      ensures !ok && old(reason).NoFailure? ==>
        reason == if !old(Live()) then InvalidGraph else if old(work) >= limits.work then ResourceLimit
                  else if !old(active) then InvalidGraph else ResourceLimit
    {
      ok := Append(GapSeen, NO_EFFECT, 0);
    }

    /** Opens a transaction: saves the log under a token with the next serial. */
    method Checkpoint(at: int) returns (m: Mark)
      requires Valid()
      modifies this
      ensures Valid() && Advanced()
      ensures m.owner == this <==> old(Live()) && old(work) < limits.work && !old(active)
                                   && at == old(cursor) && |old(transactions)| < limits.transactions
      ensures m.owner == this ==> Live() && log == old(log) && saved == old(saved) + [old(log)]
      ensures m.owner == this ==> MarksOf(transactions) == MarksOf(old(transactions)) + [m]
      ensures m.owner == this ==> m.serial == serial == old(serial) + 1
      ensures m.owner != this ==> m == NO_MARK && !reason.NoFailure? && ContentsKept()
      ensures old(finalizing) ==> Untouched() && m == NO_MARK
      ensures m.owner == this ==> work == old(work) + 1 && spanHistory == old(spanHistory) && eventHistory == old(eventHistory)
      ensures m.owner != this && old(reason).NoFailure? ==>
        reason == if !old(Live()) then InvalidGraph else if old(work) >= limits.work then ResourceLimit
                  else if old(active) || at != old(cursor) then InvalidGraph else ResourceLimit
    {
      hide Matches, TransactionsOk, ActiveOk, Describes, Final, Proper, Replay, Open, OpenAt, MarksOf;
      m := NO_MARK;
      var ok := Enter();
      if !ok { return; }
      ActiveBasics(active, activeEvents, activeGaps, log, saved);
      if active || at != cursor || at < 0 {
        if !active { MatchesBegin(Contents(events, spans, cursor, gaps), log); }
        Fail(InvalidGraph);
        return;
      }
      if |transactions| == limits.transactions {
        Fail(ResourceLimit);
        return;
      }
      m := PushMark(at);
    }

    method PushMark(at: int) returns (m: Mark)
      requires Live() && Faithful() && Valid() && !active && at == cursor && |transactions| < limits.transactions
      modifies this`serial, this`transactions, this`saved
      ensures Faithful() && Valid() && saved == old(saved) + [log]
      ensures MarksOf(transactions) == MarksOf(old(transactions)) + [m]
      ensures m.owner == this && m.serial == serial == old(serial) + 1
    {
      hide Matches, TransactionsOk, ActiveOk, Describes, Final, Proper, Replay, Open, OpenAt;
      ActiveBasics(active, activeEvents, activeGaps, log, saved);
      serial := serial + 1;
      m := Mark(this, serial, |transactions| + 1);
      var c := Saved(m, at, |events|, |spans|, gaps);
      DescribesNow(c, Contents(events, spans, cursor, gaps), log);
      StackedPush(transactions, this, serial - 1, c);
      TransactionsPush(transactions, saved, log, c);
      MarksPush(transactions, c);
      ActiveIdle(activeEvents, activeGaps, log, saved, saved + [log]);
      transactions := transactions + [c];
      saved := saved + [log];
    }

    ghost predicate IsTop(m: Mark)
      reads this
    {
      transactions != [] && transactions[|transactions| - 1].mark == m
    }

    /** In a journal's own stack the newest token has its owner and its depth. */
    lemma TopFits(m: Mark)
      requires Valid() && IsTop(m)
      ensures m.owner == this && m.depth == |transactions|
    {
      StackedPop(transactions, this, serial);
    }

    /** Admits the newest token only; stale, foreign and out-of-order tokens are failures. */
    method Top(m: Mark) returns (ok: bool)
      requires Valid()
      modifies this`reason, this`work
      ensures Valid() && Advanced() && ContentsKept()
      ensures ok <==> old(Live()) && old(work) < limits.work && !active && IsTop(m)
      ensures ok ==> Live() && Faithful() && work == old(work) + 1
      ensures !ok ==> !reason.NoFailure?
      ensures !old(Live()) ==> Untouched()
      ensures !ok && old(reason).NoFailure? ==>
        reason == if !old(Live()) then InvalidGraph else if old(work) >= limits.work then ResourceLimit
                  else InvalidGraph
    {
      hide Matches, TransactionsOk, ActiveOk, Describes, Final, Proper, Replay, Open, OpenAt, Stacked;
      ok := Enter();
      if !ok { return; }
      if IsTop(m) { TopFits(m); }
      if active || transactions == [] || m.owner != this || m.depth != |transactions|
         || transactions[|transactions| - 1].mark != m
      {
        Fail(InvalidGraph);
        return false;
      }
    }

    method Commit(m: Mark) returns (ok: bool)
      requires Valid()
      modifies this
      ensures Valid() && Advanced()
      ensures ok <==> old(Live()) && old(work) < limits.work && !old(active) && old(IsTop(m))
      ensures ok ==> Live() && log == old(log) && |old(saved)| > 0 && saved == old(saved)[..|old(saved)| - 1]
      ensures ok ==> transactions == old(transactions)[..|old(transactions)| - 1] && serial == old(serial)
      ensures !ok ==> !reason.NoFailure? && ContentsKept()
      ensures old(finalizing) ==> Untouched()
      ensures ok ==> work == old(work) + 1
      ensures ok ==> spanHistory == old(spanHistory) && eventHistory == old(eventHistory)
      ensures !ok && old(reason).NoFailure? ==>
        reason == if !old(Live()) then InvalidGraph else if old(work) >= limits.work then ResourceLimit
                  else InvalidGraph
    {
      hide Matches, TransactionsOk, ActiveOk, Describes, Final, Proper, Replay, Open, OpenAt, MarksOf, Stacked;
      ok := Top(m);
      if !ok { return; }
      TransactionsPop(transactions, saved, log);
      StackedPop(transactions, this, serial);
      ActiveIdle(activeEvents, activeGaps, log, saved, saved[..|saved| - 1]);
      transactions := transactions[..|transactions| - 1];
      saved := saved[..|saved| - 1];
    }

    /** Restores the log saved with the token, and with it the exact contents of that moment. */
    method Rollback(m: Mark, truncatedCursor: int) returns (ok: bool)
      requires Valid()
      modifies this
      ensures Valid() && Advanced()
      ensures ok <==>
        && old(Live()) && !old(active) && old(IsTop(m))
        && var c := old(transactions)[|old(transactions)| - 1];
           && truncatedCursor == c.cursor
           && old(work) + 1 + |old(events)| - c.events + |old(spans)| - c.spans <= limits.work
      ensures ok ==> |old(saved)| > 0 && log == old(saved)[|old(saved)| - 1] && saved == old(saved)[..|old(saved)| - 1]
      ensures ok ==> Live() && Contents(events, spans, cursor, gaps) == Replay(log) && cursor == truncatedCursor
      ensures ok ==> transactions == old(transactions)[..|old(transactions)| - 1] && serial == old(serial)
      ensures !ok ==> !reason.NoFailure? && ContentsKept()
      ensures old(finalizing) ==> Untouched()
      ensures ok ==> var c := old(transactions)[|old(transactions)| - 1];
        work == old(work) + 1 + |old(events)| - c.events + |old(spans)| - c.spans
      ensures ok ==> spanHistory == old(spanHistory) && eventHistory == old(eventHistory)
      ensures !ok && old(reason).NoFailure? ==>
        reason == if !old(Live()) then InvalidGraph else if old(work) >= limits.work then ResourceLimit
                  else if old(active) || !old(IsTop(m)) then InvalidGraph
                  else if truncatedCursor != old(transactions)[|old(transactions)| - 1].cursor then InvalidGraph else ResourceLimit
    {
      hide Matches, TransactionsOk, ActiveOk, Describes, Final, Proper, Replay, Open, OpenAt, Stacked;
      if Live() && transactions != [] { RollbackSizes(); }
      ok := Top(m);
      if !ok { return; }
      var c := transactions[|transactions| - 1];
      if truncatedCursor != c.cursor {
        Fail(InvalidGraph);
        return false;
      }
      ok := Charge(|events| - c.events + |spans| - c.spans);
      if !ok { return; }
      Restore(c);
    }

    lemma RollbackSizes()
      requires Faithful() && transactions != []
      ensures var c := transactions[|transactions| - 1]; 0 <= c.events <= |events| && 0 <= c.spans <= |spans|
    {
      TransactionsPop(transactions, saved, log);
      ghost var now := Contents(events, spans, cursor, gaps);
      RollbackContents(transactions[|transactions| - 1], now, log, saved[|saved| - 1]);
    }

    method Restore(c: Checkpoint)
      requires Valid() && Live() && !active && transactions != [] && c == transactions[|transactions| - 1]
      modifies this`events, this`spans, this`cursor, this`gaps, this`transactions, this`log, this`saved
      ensures Valid() && transactions == old(transactions)[..|old(transactions)| - 1] && cursor == c.cursor
      ensures |old(saved)| > 0 && log == old(saved)[|old(saved)| - 1] && saved == old(saved)[..|old(saved)| - 1]
      ensures Contents(events, spans, cursor, gaps) == Replay(log)
    {
      hide Matches, TransactionsOk, ActiveOk, Describes, Proper, Replay, Open, OpenAt, MarksOf, Stacked;
      TransactionsPop(transactions, saved, log);
      StackedPop(transactions, this, serial);
      ghost var last := saved[|saved| - 1];
      RollbackContents(c, Contents(events, spans, cursor, gaps), log, last);
      ActiveAfterRollback(activeEvents, activeGaps, last, saved[..|saved| - 1], c);
      Truncate(c, last);
    }

    method Truncate(c: Checkpoint, ghost last: seq<Emit>)
      requires 0 <= c.events <= |events| && 0 <= c.spans <= |spans| && transactions != [] && saved != []
      modifies this`events, this`spans, this`cursor, this`gaps, this`transactions, this`log, this`saved
      ensures events == old(events)[..c.events] && spans == old(spans)[..c.spans]
      ensures cursor == c.cursor && gaps == c.gaps
      ensures transactions == old(transactions)[..|old(transactions)| - 1]
      ensures log == last && saved == old(saved)[..|old(saved)| - 1]
    {
      events, spans := events[..c.events], spans[..c.spans];
      cursor, gaps := c.cursor, c.gaps;
      transactions := transactions[..|transactions| - 1];
      log, saved := last, saved[..|saved| - 1];
    }

    /** Releases a token on unwind, even without work left; the journal becomes invalid for good. */
    method Abandon(m: Mark) returns (ok: bool)
      requires Valid()
      modifies this
      ensures Valid() && Advanced() && work == old(work)
      ensures ok <==> !old(closed) && !old(finalizing) && old(IsTop(m))
      ensures ok ==> transactions == old(transactions)[..|old(transactions)| - 1] && !active
      ensures events == old(events) && spans == old(spans) && cursor == old(cursor) && gaps == old(gaps)
      ensures !ok ==> ContentsKept()
      ensures serial == old(serial) && sealed == old(sealed) && closed == old(closed)
      ensures reason.NoFailure? <==> old(closed) && old(reason).NoFailure?
      ensures old(finalizing) ==> Untouched() && !reason.NoFailure?
      ensures !old(closed) && old(reason).NoFailure? ==> reason == InvalidGraph
      ensures spanHistory == old(spanHistory) && eventHistory == old(eventHistory)
    {
      hide Faithful, Final, MarksOf, Stacked;
      if closed { return false; }
      if IsTop(m) { TopFits(m); }
      if finalizing || transactions == [] || m.owner != this || m.depth != |transactions|
         || transactions[|transactions| - 1].mark != m
      {
        Fail(InvalidGraph);
        return false;
      }
      StackedPop(transactions, this, serial);
      transactions := transactions[..|transactions| - 1];
      active := false;
      Fail(InvalidGraph);
      ok := true;
    }

    method Close()
      requires Valid()
      modifies this
      ensures Valid() && Advanced() && work == old(work) && serial == old(serial)
      ensures old(finalizing) ==> Untouched() && !reason.NoFailure?
      ensures !old(finalizing) ==> closed && Emptied() && reason == old(reason)
      ensures old(finalizing) && old(reason).NoFailure? ==> reason == InvalidGraph
      ensures spanHistory == old(spanHistory) && eventHistory == old(eventHistory)
    {
      hide Faithful, Final, MarksOf, Stacked;
      if finalizing {
        Fail(InvalidGraph);
        return;
      }
      StackedEmpty(this, serial);
      DropAll();
    }

    method DropAll()
      requires !finalizing
      modifies this`events, this`spans, this`transactions, this`active, this`sealed, this`closed,
               this`cursor, this`gaps, this`log, this`saved
      ensures closed && Emptied()
    {
      events, spans, transactions := [], [], [];
      active, sealed, closed := false, false, true;
      cursor, gaps := 0, 0;
      log, saved := [], [];
    }

    /* ---------- Finalization ---------- */

    /** Maps one boundary; a repeated boundary is not mapped or charged again. */
    method MapBoundary(mapper: Mapper, finalLen: int, boundary: int, previousOld: int, previousNew: int)
      returns (ok: bool, next: int)
      requires Valid() && finalizing && reason.NoFailure?
      modifies this
      ensures Valid() && ContentsKept() && work >= old(work) && (ok ==> reason.NoFailure?)
      ensures boundary == previousOld ==> ok && next == previousNew && work == old(work)
      ensures boundary != previousOld ==>
        (ok <==> boundary > previousOld && old(work) < limits.work && Image(mapper, boundary).Some?
                 && previousNew <= Image(mapper, boundary).value && 0 <= Image(mapper, boundary).value <= finalLen)
      ensures boundary != previousOld && ok ==> next == Image(mapper, boundary).value && work == old(work) + 1
      ensures !ok && !reason.NoFailure? ==> reason == if boundary > previousOld && old(work) >= limits.work then ResourceLimit else InvalidGraph
      ensures !ok && boundary > previousOld && old(work) >= limits.work ==> reason == ResourceLimit
      decreases 0, 5
    {
      hide Faithful, Final, Stacked, ReadsOnly;
      if boundary == previousOld { return true, previousNew; }
      next := 0;
      if boundary < previousOld { return false, 0; }
      ok := Charge(1);
      if !ok { return; }
      next := boundary;
      if mapper.Some? {
        var response := mapper.value(boundary);
        Reenter(response.calls);
        if !response.answer.Mapped? { return false, 0; }
        next := response.answer.next;
      }
      if !reason.NoFailure? || next < previousNew || next < 0 || next > finalLen { return false, 0; }
    }

    /** Maps both ends of a span; the start costs nothing when it is the previous boundary. */
    method RemapSpan(mapper: Mapper, finalLen: int, s: Span, previousOld: int, previousNew: int)
      returns (ok: bool, start: int, end: int)
      requires Valid() && finalizing && reason.NoFailure? && s.start < s.end && work <= limits.work
      requires if previousOld == -1 then previousNew == -1 && s.start >= 0
               else && previousOld == s.start && Image(mapper, s.start) == Some(previousNew)
                    && 0 <= previousNew <= finalLen
      modifies this
      ensures Valid() && ContentsKept() && work >= old(work) && (ok ==> reason.NoFailure?)
      ensures ok <==>
        SpanCoherent(mapper, s, finalLen) && old(work) + (if previousOld == -1 then 2 else 1) <= limits.work
      ensures ok ==> IsImage(mapper, s, Span(start, end)) && work == old(work) + (if previousOld == -1 then 2 else 1)
      ensures ok ==> Image(mapper, s.end) == Some(end) && 0 <= end <= finalLen
      ensures !ok && SpanCoherent(mapper, s, finalLen) ==> reason == ResourceLimit
      ensures !ok && old(work) + (if previousOld == -1 then 2 else 1) <= limits.work ==> !reason.ResourceLimit?
      ensures reason.NoFailure? || reason.ResourceLimit? || reason.InvalidGraph?
      decreases 0, 6
    {
      hide Valid, Image;
      end := 0;
      ok, start := MapBoundary(mapper, finalLen, s.start, previousOld, previousNew);
      if !ok { return; }
      ok, end := MapBoundary(mapper, finalLen, s.end, s.start, start);
      if !ok { return; }
      ok := end > start;
    }

    /** Remaps the spans in place, remembering the last boundary and its image. */
    method RemapSpans(mapper: Mapper, finalLen: int) returns (ok: bool, previousOld: int, previousNew: int)
      requires Valid() && finalizing && reason.NoFailure? && finalLen >= 0 && work <= limits.work
      requires forall i :: 0 <= i < |spans| ==> 0 <= spans[i].start < spans[i].end
      requires forall i :: 0 < i < |spans| ==> spans[i - 1].end == spans[i].start
      modifies this
      ensures Valid() && SameBook() && work >= old(work) && (ok ==> reason.NoFailure?)
      ensures ok <==> SpansCoherent(mapper, old(spans), finalLen) && old(work) + RemapCost(|old(spans)|) <= limits.work
      ensures ok ==> AreImages(mapper, old(spans), spans)
      ensures ok ==> work == old(work) + RemapCost(|spans|)
      ensures ok ==> if spans == [] then previousOld == previousNew == -1
                     else previousOld == old(spans)[|spans| - 1].end && Image(mapper, previousOld) == Some(previousNew)
      ensures !ok && SpansCoherent(mapper, old(spans), finalLen) ==> reason == ResourceLimit
      ensures !ok && old(work) + RemapCost(|old(spans)|) <= limits.work ==> !reason.ResourceLimit?
      ensures reason.NoFailure? || reason.ResourceLimit? || reason.InvalidGraph?
      decreases 0, 7
    {
      hide SpanCoherent, IsImage, Image, Stacked, Faithful, Final;
      ok, previousOld, previousNew := true, -1, -1;
      ghost var s0 := spans;
      for i := 0 to |spans|
        invariant ok && Valid() && SameBook() && reason.NoFailure?
        invariant |spans| == |s0| && forall k :: i <= k < |s0| ==> spans[k] == s0[k]
        invariant work == old(work) + RemapCost(i) <= limits.work
        invariant if i == 0 then previousOld == previousNew == -1
                  else && previousOld == s0[i - 1].end && Image(mapper, previousOld) == Some(previousNew)
                       && 0 <= previousNew <= finalLen
        invariant forall k :: 0 <= k < i ==> SpanCoherent(mapper, s0[k], finalLen)
        invariant forall k :: 0 <= k < i ==> IsImage(mapper, s0[k], spans[k])
      {
        var start, end;
        ok, start, end := RemapSpan(mapper, finalLen, spans[i], previousOld, previousNew);
        if !ok {
          assert SpanCoherent(mapper, s0[i], finalLen) ==> old(work) + RemapCost(i + 1) > limits.work;
          return;
        }
        previousOld, previousNew := spans[i].end, end;
        spans := spans[i := Span(start, end)];
      }
    }

    /** Remaps everything; succeeds exactly on a coherent mapper with enough work left. */
    method Remap(mapper: Mapper, oldLen: int, finalLen: int) returns (ok: bool)
      requires Valid() && finalizing && reason.NoFailure?
      requires Tiled(spans, oldLen, false) && finalLen >= 0 && work <= limits.work
      modifies this
      ensures Valid() && SameBook() && work >= old(work) && (ok ==> reason.NoFailure?)
      ensures ok <==> Coherent(mapper, old(spans), oldLen, finalLen) && old(work) + |old(spans)| + 1 <= limits.work
      ensures ok ==> AreImages(mapper, old(spans), spans)
      ensures !ok && Coherent(mapper, old(spans), oldLen, finalLen) ==> reason == ResourceLimit
      ensures !ok && old(work) + |old(spans)| + 1 <= limits.work ==> !reason.ResourceLimit?
      ensures ok ==> work == old(work) + |old(spans)| + 1
      ensures reason.NoFailure? || reason.ResourceLimit? || reason.InvalidGraph?
      decreases 0, 8
    {
      TiledByIndex(spans, oldLen);
      hide Tiled, SpanCoherent, IsImage, Image, Valid;
      var previousOld, previousNew, last;
      ok, previousOld, previousNew := RemapSpans(mapper, finalLen);
      if !ok { return; }
      ok, last := MapBoundary(mapper, finalLen, oldLen, previousOld, previousNew);
      if !ok { return; }
      ok := last == finalLen;
    }

    /** With no open emission, the spans tile [0, cursor). */
    lemma Finished()
      requires Faithful() && !active
      ensures Tiled(spans, cursor, false) && Proper(log) && !Open(log)
      ensures events == Replay(log).events && gaps == Replay(log).gaps && spans == Replay(log).spans
    {
      ReplayInvariants(log);
    }

    /** Remaps and seals a journal with nothing unfinished; the flag is up while the mapper runs. */
    method Seal(oldLen: int, finalLen: int, mapper: Mapper)
      requires Valid() && Live() && !active && transactions == [] && oldLen == cursor && finalLen >= 0
      modifies this
      ensures Valid() && SameLog() && !finalizing && work >= old(work)
      ensures reason.NoFailure? <==>
        Coherent(mapper, old(spans), oldLen, finalLen) && old(work) + |old(spans)| + 1 <= limits.work
      ensures reason.NoFailure? ==> sealed && length == finalLen && sealer == mapper && AreImages(mapper, old(spans), spans)
      ensures !reason.NoFailure? ==> !sealed
      ensures reason.NoFailure? ==> work == old(work) + |old(spans)| + 1
      ensures Coherent(mapper, old(spans), oldLen, finalLen) && !reason.NoFailure? ==> reason == ResourceLimit
      ensures old(work) + |old(spans)| + 1 <= limits.work && !reason.NoFailure? ==> reason == InvalidGraph
      ensures reason.NoFailure? || reason.ResourceLimit? || reason.InvalidGraph?
      decreases 1, 0
    {
      hide Matches, TransactionsOk, ActiveOk, Tiled, Coherent, Proper, Replay, Open, Contiguous, AreImages, Stacked;
      Finished();
      ghost var s0 := spans;
      finalizing := true;
      var ok := Remap(mapper, oldLen, finalLen);
      finalizing := false;
      if !ok {
        Fail(InvalidGraph);
        return;
      }
      RemappedContiguous(mapper, s0, spans, oldLen, finalLen);
      sealed := true;
      length, sealer := finalLen, mapper;
    }

    /**
     Fixes the final offsets.  It seals the journal exactly when nothing is unfinished, the
     lengths agree, the mapper is coherent and the work suffices; otherwise the failure is sticky.
     */
    method Finalize(oldLen: int, finalLen: int, mapper: Mapper) returns (r: JournalResult)
      requires Valid()
      modifies this
      ensures Valid() && Advanced() && SameLog()
      ensures reason.NoFailure? <==>
        && old(Live()) && !old(active) && old(transactions) == [] && oldLen == old(cursor) && finalLen >= 0
        && Coherent(mapper, old(spans), oldLen, finalLen) && old(work) + |old(spans)| + 2 <= limits.work
      ensures reason.NoFailure? ==>
        sealed && length == finalLen && sealer == mapper && Contiguous(spans, finalLen) && AreImages(mapper, old(spans), spans)
      ensures r.state.Ready? ==> Contiguous(spans, length) && forall i :: 0 <= i < |events| ==> !events[i].kind.GapSeen?
      ensures old(finalizing) ==> Untouched()
      ensures reason.NoFailure? ==> work == old(work) + |old(spans)| + 2
      ensures old(reason).NoFailure? && !old(Live()) ==> reason == InvalidGraph
      ensures old(Live()) && old(work) >= limits.work ==> reason == ResourceLimit
      ensures old(Live()) && old(work) < limits.work && (old(active) || old(transactions) != [] || oldLen != old(cursor) || finalLen < 0) ==>
        reason == InvalidGraph
      ensures old(Live()) && old(work) + |old(spans)| + 2 <= limits.work && !reason.NoFailure? ==> reason == InvalidGraph
      ensures old(Live()) && !old(active) && old(transactions) == [] && oldLen == old(cursor) && finalLen >= 0 ==>
        Coherent(mapper, old(spans), oldLen, finalLen) && !reason.NoFailure? ==> reason == ResourceLimit
      ensures r == ResultNow()
      decreases if finalizing then 0 else 1, 1
    {
      hide TransactionsOk, ActiveOk, Matches, Proper, Replay, Coherent, Contiguous, AreImages, Stacked;
      var ok := Enter();
      if ok {
        if active || |transactions| != 0 || oldLen != cursor || finalLen < 0 {
          Fail(InvalidGraph);
        } else {
          Seal(oldLen, finalLen, mapper);
        }
      }
      r := Summary();
    }

    /** The journal's summary: Ready means finalized, no failure, and no gap retained. */
    /** What the journal reports of itself. */
    ghost function ResultNow(): JournalResult
      reads this
    {
      JournalResult(
        if closed then Closed else if reason.ResourceLimit? then Incomplete else if !reason.NoFailure? then Invalid
        else if !sealed then Recording else if gaps != 0 then Incomplete else Ready,
        if !closed && reason.NoFailure? && sealed && gaps != 0 then UnsupportedOperation else reason,
        work, |events|, |spans|, eventHistory, spanHistory)
    }

    /** The journal's summary: Ready means finalized, no failure, and no gap retained. */
    method Summary() returns (r: JournalResult)
      requires Valid()
      ensures r == ResultNow()
      ensures r.state.Ready? ==> Final() && forall i :: 0 <= i < |events| ==> !events[i].kind.GapSeen?
    {
      hide Stacked;
      var state, why := Recording, reason;
      if closed { state := Closed; }
      else if reason.ResourceLimit? { state := Incomplete; }
      else if !reason.NoFailure? { state := Invalid; }
      else if sealed && gaps != 0 { state, why := Incomplete, UnsupportedOperation; }
      else if sealed {
        state := Ready;
        ReplayInvariants(log);
        NoGaps(events);
      }
      r := JournalResult(state, why, work, |events|, |spans|, eventHistory, spanHistory);
    }

    /** Events are readable only from a sealed, failure-free journal. */
    method Event(i: int) returns (e: Option<JournalEvent>)
      requires Valid()
      ensures e.Some? <==> !closed && sealed && reason.NoFailure? && 0 <= i < |events|
      ensures e.Some? ==> 0 <= e.value.start < e.value.end <= length
      ensures e.Some? ==> e.value == EventOf(events[i], spans)
    {
      hide Stacked;
      if closed || !sealed || !reason.NoFailure? || i < 0 || i >= |events| { return None; }
      ReplayInvariants(log);
      var o := events[i];
      e := Some(JournalEvent(o.kind, o.effect, o.writes, spans[o.span].start, spans[o.span].end));
    }

    /* ---------- Calls as values ---------- */

    /** The calls a mapper makes: none of them has an effect, and any but a query is a failure. */
    method Reenter(calls: seq<Call>)
      requires Valid() && finalizing
      modifies this
      ensures Valid() && Advanced() && Untouched()
      ensures reason.NoFailure? <==> old(reason).NoFailure? && ReadsOnly(calls)
      ensures old(reason).NoFailure? && !reason.NoFailure? ==> reason == InvalidGraph
      decreases 0, 4
    {
      hide Valid, Mutates;
      for i := 0 to |calls|
        invariant Valid() && Advanced() && Untouched()
        invariant old(reason).NoFailure? && !reason.NoFailure? ==> reason == InvalidGraph
        invariant reason.NoFailure? <==> old(reason).NoFailure? && ReadsOnly(calls[..i])
      {
        assert calls[..i + 1] == calls[..i] + [calls[i]];
        var _ := Perform(calls[i]);
      }
      assert calls[..|calls|] == calls;
    }

    /** What the naive account of the calls should show. */
    ghost function View(): Naive
      reads this
    {
      Naive(log, saved, closed, if sealed then Some(Sealing(length, sealer)) else None, work, eventHistory, spanHistory)
    }

    /** While recording, the contents are the replay of the log. */
    lemma LiveContents()
      requires Valid() && Live()
      ensures Proper(log) && Contents(events, spans, cursor, gaps) == Replay(log)
    {
    }

    /** What the open emission has recorded, in terms of the log. */
    lemma OpenContents()
      requires Valid() && Live() && active
      ensures Proper(log) && Open(log) && activeEvents == |Replay(log[..OpenAt(log)]).events|
    {
    }

    /** What the newest checkpoint has saved, in terms of the log. */
    lemma SavedContents()
      requires Valid() && Live() && transactions != []
      ensures |saved| == |transactions|
      ensures var c, was := transactions[|transactions| - 1], Replay(saved[|saved| - 1]);
              c.events == |was.events| && c.spans == |was.spans|
    {
      TransactionsPop(transactions, saved, log);
    }

    /** Finalization, seen from the naive account. */
    method Finish(oldLen: int, finalLen: int, mapper: Mapper) returns (r: JournalResult)
      requires Valid()
      modifies this
      ensures Valid() && Advanced() && SameLog()
      ensures old(finalizing) ==> Untouched() && !reason.NoFailure?
      ensures reason.NoFailure? ==> View() == NaiveStep(old(View()), DoFinalize(oldLen, finalLen, mapper))
      ensures old(finalizing) && old(reason).NoFailure? ==> reason == InvalidGraph
      ensures r == ResultNow()
      decreases if finalizing then 0 else 1, 2
    {
      hide TransactionsOk, ActiveOk, Proper, Replay, Coherent, Contiguous, AreImages, Stacked;
      if Live() { LiveContents(); }
      r := Finalize(oldLen, finalLen, mapper);

    }

    /** Commit, Rollback and Abandon, seen as steps of the token stack. */
    method HandBack(c: Call) returns (ok: bool)
      requires Valid() && Closes(c)
      modifies this
      ensures Valid() && Advanced()
      ensures TokenStep(MarksOf(old(transactions)), old(serial), MarksOf(transactions), serial)
      ensures ok ==> old(IsTop(c.mark)) && transactions == old(transactions)[..|old(transactions)| - 1]
      ensures !ok ==> ContentsKept() && (!reason.NoFailure? || (c.DoAbandon? && old(closed)))
      ensures old(finalizing) ==> Untouched() && !reason.NoFailure?
      ensures reason.NoFailure? ==> View() == NaiveStep(old(View()), c)
      ensures old(finalizing) && old(reason).NoFailure? ==> reason == InvalidGraph
    {
      hide Valid, Replay, MarksOf;
      if transactions != [] {
        MarksPop(transactions);
        if Live() { SavedContents(); }
      }
      if Live() { LiveContents(); }
      match c {
        case DoCommit(m) => ok := Commit(m);
        case DoRollback(m, at) => ok := Rollback(m, at);
        case DoAbandon(m) => ok := Abandon(m);
      }
    }

    /** The calls that add to the log or take its open emission back. */
    method Record(c: Call) returns (ok: bool)
      requires Valid() && Records(c)
      modifies this
      ensures Valid() && Advanced() && transactions == old(transactions) && serial == old(serial)
      ensures old(finalizing) ==> Untouched() && !reason.NoFailure?
      ensures reason.NoFailure? ==> View() == NaiveStep(old(View()), c)
      ensures old(finalizing) && old(reason).NoFailure? ==> reason == InvalidGraph
      ensures reason.NoFailure? ==> ok
    {
      hide Valid, Replay;
      if Live() { LiveContents(); }
      if Live() && active { OpenContents(); }
      match c {
        case DoBegin(start) => ok := BeginEmission(start);
        case DoAbort(at) =>
          ok := AbortEmission(at);
          if ok { DropOpenIsPrefix(old(log)); }
        case DoEnd(end) => ok := EndEmission(end);
        case DoEffect(e) => ok := ObserveEffect(e);
        case DoWrites(mask) => ok := ObserveGPWrites(mask);
        case DoGap => ok := ObserveGap();
      }
    }

    /** What a query for an event should answer. */
    ghost function EventNow(i: int): Option<JournalEvent>
      reads this
    {
      if !closed && sealed && reason.NoFailure? && 0 <= i < |events| then Some(EventOf(events[i], spans)) else None
    }

    /** Makes one call. */
    method Perform(c: Call) returns (reply: Reply)
      requires Valid()
      modifies this
      ensures Valid() && Advanced()
      ensures TokenStep(MarksOf(old(transactions)), old(serial), MarksOf(transactions), serial)
      ensures c.DoCheckpoint? && reply.ok ==> MarksOf(transactions) == MarksOf(old(transactions)) + [reply.mark]
      ensures c.DoCheckpoint? && reply.ok ==> reply.mark.serial == serial == old(serial) + 1
      ensures Closes(c) && reply.ok ==> old(IsTop(c.mark)) && transactions == old(transactions)[..|old(transactions)| - 1]
      ensures Closes(c) && !reply.ok ==> ContentsKept() && (!reason.NoFailure? || (c.DoAbandon? && old(closed)))
      ensures old(finalizing) ==> Untouched() && (Mutates(c) ==> !reason.NoFailure?)
      ensures !Mutates(c) ==> Untouched() && reason == old(reason)
      ensures reason.NoFailure? && !finalizing ==> View() == NaiveStep(old(View()), c)
      ensures old(finalizing) && old(reason).NoFailure? && Mutates(c) ==> reason == InvalidGraph
      ensures c.DoEvent? ==> reply.event == EventNow(c.index)
      ensures c.DoResult? || c.DoFinalize? ==> reply.result == Some(ResultNow())
      ensures !c.DoEvent? ==> reply.event.None?
      ensures Records(c) && reason.NoFailure? ==> reply.ok
      decreases if finalizing then 0 else 1, 3
    {
      hide Valid, Replay;
      reply := Reply(true, NO_MARK, None, None);
      var ok;
      if Closes(c) {
        ok := HandBack(c);
        reply := reply.(ok := ok);
      } else if Records(c) {
        ok := Record(c);
        reply := reply.(ok := ok);
      } else {
        match c
        case DoCheckpoint(at) =>
          var m := Checkpoint(at);
          reply := reply.(ok := m.owner == this, mark := m);
        case DoFinalize(oldLen, finalLen, mapper) =>
          var r := Finish(oldLen, finalLen, mapper);
          reply := reply.(ok := r.state.Ready?, result := Some(r));
        case DoClose => Close();
        case DoResult =>
          var r := Summary();
          reply := reply.(result := Some(r));
        case DoEvent(i) =>
          var e := Event(i);
          reply := reply.(ok := e.Some?, event := e);
      }
    }
  }

  /** Distinct boundaries of n spans, each mapped once. */
  function RemapCost(n: nat): nat {
    if n == 0 then 0 else n + 1
  }

  /** `t` is `s` with both ends mapped. */
  predicate IsImage(mapper: Mapper, s: Span, t: Span) {
    Image(mapper, s.start) == Some(t.start) && Image(mapper, s.end) == Some(t.end)
  }

  ghost predicate AreImages(mapper: Mapper, s: seq<Span>, t: seq<Span>) {
    |t| == |s| && forall i :: 0 <= i < |s| ==> IsImage(mapper, s[i], t[i])
  }

  ghost predicate SpansCoherent(mapper: Mapper, spans: seq<Span>, finalLen: int) {
    forall i :: 0 <= i < |spans| ==> SpanCoherent(mapper, spans[i], finalLen)
  }

  /** The images of tiled spans under a coherent mapper are contiguous and end at the final length. */
  lemma RemappedContiguous(mapper: Mapper, s: seq<Span>, t: seq<Span>, oldLen: int, finalLen: int)
    requires Tiled(s, oldLen, false) && Coherent(mapper, s, oldLen, finalLen) && AreImages(mapper, s, t)
    ensures |t| == |s| && Contiguous(t, finalLen)
  {
    TiledByIndex(s, oldLen);
    forall i | 0 <= i < |t| ensures 0 <= t[i].start < t[i].end <= finalLen {
      assert SpanCoherent(mapper, s[i], finalLen);
    }
  }

  /** A mapper that changes anything, at any boundary it is asked for, is not coherent. */
  lemma MeddlingMapperIncoherent(mapper: Mapper, spans: seq<Span>, oldLen: int, finalLen: int, x: int)
    requires mapper.Some? && !ReadsOnly(mapper.value(x).calls)
    requires x == oldLen || exists i :: 0 <= i < |spans| && (x == spans[i].start || x == spans[i].end)
    ensures !Coherent(mapper, spans, oldLen, finalLen)
  {
    if x != oldLen {
      var i :| 0 <= i < |spans| && (x == spans[i].start || x == spans[i].end);
      assert !SpanCoherent(mapper, spans[i], finalLen);
    }
  }

  lemma {:induction false} NoGaps(events: seq<Observation>)
    requires GapCount(events) == 0
    ensures forall i :: 0 <= i < |events| ==> !events[i].kind.GapSeen?
  {
    if events != [] { NoGaps(events[..|events| - 1]); }
  }

  /* ---------- Tokens over whole runs ---------- */

  /** What a run shows after each call. */
  datatype Snapshot = Snapshot(open: seq<Mark>, serial: nat, failed: bool, closed: bool)

  ghost predicate TokenRun(run: seq<Snapshot>) {
    && run != []
    && forall i :: 0 < i < |run| ==> TokenStep(run[i - 1].open, run[i - 1].serial, run[i].open, run[i].serial)
  }

  /** A token that was issued and is no longer open is never open again. */
  lemma {:induction false} StaleTokenStaysClosed(run: seq<Snapshot>, m: Mark)
    requires TokenRun(run) && m.serial <= run[0].serial && m !in run[0].open
    ensures m !in run[|run| - 1].open && m.serial <= run[|run| - 1].serial
  {
    if |run| > 1 {
      var init := run[..|run| - 1];
      StaleTokenStaysClosed(init, m);
      var before, after := run[|run| - 2], run[|run| - 1];
      assert TokenStep(before.open, before.serial, after.open, after.serial);
      if |after.open| == |before.open| + 1 && after.open[..|before.open|] == before.open {
        assert after.open == before.open + [after.open[|before.open|]];
      }
    }
  }

  /** What a call answers: whether it was accepted, the token of a checkpoint, and what a query found. */
  datatype Reply = Reply(ok: bool, mark: Mark, event: Option<JournalEvent>, result: Option<JournalResult>)

  /** The call hands back the token `m`. */
  predicate Names(c: Call, m: Mark) {
    Closes(c) && c.mark == m
  }

  /** What call k did to the tokens: it took the newest one off, or changed nothing and left a failure. */
  ghost predicate TokenCall(before: Snapshot, c: Call, reply: Reply, after: Snapshot) {
    && TokenStep(before.open, before.serial, after.open, after.serial)
    && (before.failed ==> after.failed)
    && (before.closed ==> after.closed && after.open == [])
    && (c.DoCheckpoint? && reply.ok ==>
          after.open == before.open + [reply.mark] && reply.mark.serial == after.serial == before.serial + 1)
    && (Closes(c) && reply.ok ==>
          && before.open != [] && before.open[|before.open| - 1] == c.mark
          && after.open == before.open[..|before.open| - 1])
    && (Closes(c) && !reply.ok ==>
          after.open == before.open && (after.failed || (c.DoAbandon? && before.closed)))
  }

  ghost predicate TokenHistory(j: EmissionJournal, calls: seq<Call>, replies: seq<Reply>, trace: seq<Snapshot>) {
    && |replies| == |calls| && |trace| == |calls| + 1
    && (forall k :: 0 <= k < |trace| ==> Stacked(trace[k].open, j, trace[k].serial))
    && (forall k :: 0 <= k < |calls| ==> TokenCall(trace[k], calls[k], replies[k], trace[k + 1]))
  }

  lemma {:induction false} FailureStays(
    j: EmissionJournal, calls: seq<Call>, replies: seq<Reply>, trace: seq<Snapshot>, i: nat, k: nat)
    requires TokenHistory(j, calls, replies, trace) && i <= k < |trace|
    ensures trace[i].failed ==> trace[k].failed
    ensures trace[i].closed ==> trace[k].closed
  {
    if i < k {
      FailureStays(j, calls, replies, trace, i, k - 1);
      assert TokenCall(trace[k - 1], calls[k - 1], replies[k - 1], trace[k]);
    }
  }

  lemma {:induction false} SerialsGrow(
    j: EmissionJournal, calls: seq<Call>, replies: seq<Reply>, trace: seq<Snapshot>, i: nat, k: nat)
    requires TokenHistory(j, calls, replies, trace) && i <= k < |trace|
    ensures trace[i].serial <= trace[k].serial
  {
    if i < k {
      SerialsGrow(j, calls, replies, trace, i, k - 1);
      assert TokenCall(trace[k - 1], calls[k - 1], replies[k - 1], trace[k]);
    }
  }

  /** No token is issued twice. */
  lemma IssuedOnce(
    j: EmissionJournal, calls: seq<Call>, replies: seq<Reply>, trace: seq<Snapshot>, i: nat, k: nat)
    requires TokenHistory(j, calls, replies, trace) && i < k < |calls|
    requires calls[i].DoCheckpoint? && replies[i].ok && calls[k].DoCheckpoint? && replies[k].ok
    ensures replies[i].mark != replies[k].mark
  {
    SerialsGrow(j, calls, replies, trace, i + 1, k);
    assert TokenCall(trace[i], calls[i], replies[i], trace[i + 1]);
    assert TokenCall(trace[k], calls[k], replies[k], trace[k + 1]);
  }

  /**
   A call that names a token which is not open is refused: the tokens stay as they are, and the
   journal is failed or closed from then on.
   */
  lemma UnopenRefused(
    j: EmissionJournal, calls: seq<Call>, replies: seq<Reply>, trace: seq<Snapshot>, k: nat)
    requires TokenHistory(j, calls, replies, trace) && k < |calls|
    requires Closes(calls[k]) && calls[k].mark !in trace[k].open
    ensures !replies[k].ok && trace[k + 1].open == trace[k].open
    ensures trace[|calls|].failed || trace[|calls|].closed
  {
    assert TokenCall(trace[k], calls[k], replies[k], trace[k + 1]);
    FailureStays(j, calls, replies, trace, k + 1, |calls|);
  }

  /** A token of another journal is refused by every call, at any time. */
  lemma ForeignTokenRefused(
    j: EmissionJournal, calls: seq<Call>, replies: seq<Reply>, trace: seq<Snapshot>, k: nat)
    requires TokenHistory(j, calls, replies, trace) && k < |calls|
    requires Closes(calls[k]) && calls[k].mark.owner != j
    ensures !replies[k].ok && trace[k + 1].open == trace[k].open
    ensures trace[|calls|].failed || trace[|calls|].closed
  {
    assert Stacked(trace[k].open, j, trace[k].serial);
    UnopenRefused(j, calls, replies, trace, k);
  }

  /** Once a call has handed a token back, every later call that names it is refused. */
  lemma StaleTokenRefused(
    j: EmissionJournal, calls: seq<Call>, replies: seq<Reply>, trace: seq<Snapshot>, i: nat, k: nat)
    requires TokenHistory(j, calls, replies, trace) && i < k < |calls|
    requires Closes(calls[i]) && replies[i].ok && Names(calls[k], calls[i].mark)
    ensures !replies[k].ok && trace[k + 1].open == trace[k].open
    ensures trace[|calls|].failed || trace[|calls|].closed
  {
    var m, run := calls[i].mark, trace[i + 1..k + 1];
    HandedBack(j, trace[i], calls[i], replies[i], trace[i + 1]);
    forall n | 0 < n < |run| ensures TokenStep(run[n - 1].open, run[n - 1].serial, run[n].open, run[n].serial) {
      assert TokenCall(trace[i + n], calls[i + n], replies[i + n], trace[i + n + 1]);
    }
    StaleTokenStaysClosed(run, m);
    UnopenRefused(j, calls, replies, trace, k);
  }

  lemma HandedBack(j: EmissionJournal, before: Snapshot, c: Call, reply: Reply, after: Snapshot)
    requires Stacked(before.open, j, before.serial) && Stacked(after.open, j, after.serial)
    requires TokenCall(before, c, reply, after) && Closes(c) && reply.ok
    ensures c.mark !in after.open && c.mark.serial <= after.serial
  {
  }

  /** A token still open when the journal is closed is refused from then on, too. */
  lemma ClosedRefusesAll(
    j: EmissionJournal, calls: seq<Call>, replies: seq<Reply>, trace: seq<Snapshot>, i: nat, k: nat)
    requires TokenHistory(j, calls, replies, trace) && i < k < |calls|
    requires trace[i].closed && Closes(calls[k])
    ensures !replies[k].ok
  {
    FailureStays(j, calls, replies, trace, i, k - 1);
    assert TokenCall(trace[k - 1], calls[k - 1], replies[k - 1], trace[k]);
    UnopenRefused(j, calls, replies, trace, k);
  }

  /* ---------- Whole call sequences ---------- */

  datatype Sealing = Sealing(length: int, mapper: Mapper)

  /** The naive account: a log, the logs saved by open checkpoints, and how the journal ended. */
  datatype Naive = Naive(
    log: seq<Emit>, saved: seq<seq<Emit>>, closed: bool, final: Option<Sealing>,
    work: int, eventHistory: int, spanHistory: int)

  /** Forgets everything since the last Begin. */
  function DropOpen(log: seq<Emit>): seq<Emit> {
    if log == [] then []
    else if log[|log| - 1].Begin? then log[..|log| - 1]
    else DropOpen(log[..|log| - 1])
  }

  /** What a call costs: one unit, and what is dropped or mapped. */
  function NaiveCost(n: Naive, c: Call): int {
    match c
    case DoAbort(_) => 2 + |Replay(n.log).events| - |Replay(DropOpen(n.log)).events|
    case DoRollback(_, _) =>
      if n.saved == [] then 1
      else
        var was, now := Replay(n.saved[|n.saved| - 1]), Replay(n.log);
        1 + |now.events| - |was.events| + |now.spans| - |was.spans|
    case DoFinalize(_, _, _) => 2 + |Replay(n.log).spans|
    case DoClose => 0
    case DoAbandon(_) => 0
    case DoResult => 0
    case DoEvent(_) => 0
    case _ => 1
  }

  function NaiveStep(n: Naive, c: Call): Naive {
    var n := n.(work := n.work + NaiveCost(n, c));
    match c
    case DoBegin(start) => n.(log := n.log + [Begin(start)], spanHistory := n.spanHistory + 1)
    case DoAbort(_) => n.(log := DropOpen(n.log))
    case DoEnd(end) => n.(log := n.log + [End(end)])
    case DoEffect(e) => n.(log := n.log + [Observe(EffectSeen, e, 0)], eventHistory := n.eventHistory + 1)
    case DoWrites(mask) => n.(log := n.log + [Observe(GPWritesSeen, NO_EFFECT, mask)], eventHistory := n.eventHistory + 1)
    case DoGap => n.(log := n.log + [Observe(GapSeen, NO_EFFECT, 0)], eventHistory := n.eventHistory + 1)
    case DoCheckpoint(_) => n.(saved := n.saved + [n.log])
    case DoCommit(_) => if n.saved == [] then n else n.(saved := n.saved[..|n.saved| - 1])
    case DoRollback(_, _) =>
      if n.saved == [] then n else n.(log := n.saved[|n.saved| - 1], saved := n.saved[..|n.saved| - 1])
    case DoFinalize(_, finalLen, mapper) => n.(final := Some(Sealing(finalLen, mapper)))
    case DoClose => n.(log := [], saved := [], closed := true, final := None)
    case _ => n
  }

  function NaiveRun(calls: seq<Call>): Naive {
    if calls == [] then Naive([], [], false, None, 0, 0, 0)
    else NaiveStep(NaiveRun(calls[..|calls| - 1]), calls[|calls| - 1])
  }

  lemma {:induction false} DropOpenIsPrefix(log: seq<Emit>)
    requires Proper(log) && Open(log)
    ensures DropOpen(log) == log[..OpenAt(log)]
  {
    if !log[|log| - 1].Begin? {
      var init := log[..|log| - 1];
      DropOpenIsPrefix(init);
      assert init[..OpenAt(init)] == log[..OpenAt(log)];
    }
  }

  /* ---------- Queries against the naive account ---------- */

  /** Event `i` of a finalized account: an observation, and the images of the boundaries of its emission. */
  ghost predicate EventFits(n: Naive, i: int, e: JournalEvent) {
    exists p: nat, q: nat, t: nat ::
      && p < q < t && Emission(n.log, p, t) && n.log[q].Observe? && Observed(n.log[..q]) == i
      && e.kind == n.log[q].kind && e.effect == n.log[q].effect && e.writes == n.log[q].writes
      && n.final.Some?
      && Image(n.final.value.mapper, n.log[p].start) == Some(e.start) && Image(n.final.value.mapper, n.log[t].end) == Some(e.end)
  }

  /** The summary of an account without failure. */
  function NaiveResult(n: Naive): JournalResult {
    var c := Replay(n.log);
    JournalResult(
      if n.closed then Closed else if n.final.None? then Recording else if c.gaps != 0 then Incomplete else Ready,
      if !n.closed && n.final.Some? && c.gaps != 0 then UnsupportedOperation else NoFailure,
      n.work, |c.events|, |c.spans|, n.eventHistory, n.spanHistory)
  }

  /** What queries answer: without a failure, what the naive account shows; after one, no event and no success. */
  ghost predicate ReplyFits(n: Naive, failed: bool, c: Call, reply: Reply) {
    && (c.DoEvent? ==>
          && (reply.event.Some? <==> !failed && !n.closed && n.final.Some? && 0 <= c.index < Observed(n.log))
          && (reply.event.Some? ==> EventFits(n, c.index, reply.event.value)))
    && (c.DoResult? || c.DoFinalize? ==>
          && reply.result.Some?
          && (if failed then !reply.result.value.state.Ready? && !reply.result.value.state.Recording?
              else reply.result.value == NaiveResult(n)))
  }

  /** A journal without failure shows what the account does. */
  lemma ResultFits(j: EmissionJournal)
    requires j.Valid() && !j.finalizing && j.reason.NoFailure?
    ensures j.ResultNow() == NaiveResult(j.View())
  {
  }

  lemma EventsFit(j: EmissionJournal, i: int)
    requires j.Valid() && !j.finalizing && j.reason.NoFailure?
    ensures j.EventNow(i).Some? <==> !j.closed && j.sealed && 0 <= i < Observed(j.log)
    ensures j.EventNow(i).Some? ==> EventFits(j.View(), i, j.EventNow(i).value)
  {
    ReplaySizes(j.log);
    if j.EventNow(i).Some? {
      var p, q, t := ObservationEmission(j.log, i);
      assert IsImage(j.sealer, Replay(j.log).spans[j.events[i].span], j.spans[j.events[i].span]);
    }
  }

  /**
   Any client, choosing each call from the replies so far.  If no failure is left, the journal holds
   exactly the naive replay of the calls; and the tokens follow the history that the lemmas above
   are about, so stale and foreign tokens are refused.
   */
  method PerformAll(l: JournalLimits, steps: nat, client: seq<Reply> -> Call)
    returns (j: EmissionJournal, calls: seq<Call>, replies: seq<Reply>, ghost trace: seq<Snapshot>)
    ensures fresh(j) && j.Valid() && !j.finalizing
    ensures |calls| == steps && |replies| == steps
    ensures forall k :: 0 <= k < steps ==> calls[k] == client(replies[..k])
    ensures j.reason.NoFailure? ==>
      var n := NaiveRun(calls);
      && Proper(n.log) && j.closed == n.closed && j.sealed == n.final.Some?
      && j.events == Replay(n.log).events && j.gaps == Replay(n.log).gaps
      && j.work == n.work && j.eventHistory == n.eventHistory && j.spanHistory == n.spanHistory
      && if j.sealed then
           AreImages(n.final.value.mapper, Replay(n.log).spans, j.spans) && Contiguous(j.spans, n.final.value.length)
         else j.spans == Replay(n.log).spans && j.cursor == Replay(n.log).cursor
    ensures TokenHistory(j, calls, replies, trace)
    ensures forall k :: 0 <= k < steps ==> CallFits(calls, k, trace[k + 1].failed, replies[k])
    ensures trace[steps].failed == !j.reason.NoFailure? && trace[steps].closed == j.closed
    ensures forall k :: 0 <= k < steps && Closes(calls[k]) && calls[k].mark.owner != j ==> !replies[k].ok
    ensures forall i, k :: 0 <= i < k < steps && replies[i].ok && Closes(calls[i]) && Names(calls[k], calls[i].mark) ==>
      !replies[k].ok && (!j.reason.NoFailure? || j.closed)
  {
    j := new EmissionJournal(l);
    calls, replies, trace := [], [], [Snapshot([], 0, !j.reason.NoFailure?, false)];
    for k := 0 to steps
      invariant fresh(j) && j.Valid() && !j.finalizing
      invariant |calls| == |replies| == k && |trace| == k + 1
      invariant forall i :: 0 <= i < k ==> calls[i] == client(replies[..i])
      invariant j.reason.NoFailure? ==> j.View() == NaiveRun(calls)
      invariant TokenHistory(j, calls, replies, trace)
      invariant forall i :: 0 <= i < k ==> CallFits(calls, i, trace[i + 1].failed, replies[i])
      invariant trace[k] == Snapshot(MarksOf(j.transactions), j.serial, !j.reason.NoFailure?, j.closed)
    {
      hide EmissionJournal.Faithful, EmissionJournal.Final, Stacked, TokenCall, TokenStep, NaiveStep, ReplyFits, CallFits;
      var c := client(replies);
      ghost var before, was := trace[k], NaiveRun(calls);
      var reply, after := MakeCall(j, c, before);
      HistoryGrows(j, calls, replies, trace, c, reply, after);
      assert (calls + [c])[..k] == calls;
      FitsGrows(calls, replies, trace, c, reply, after, j.View());
      assert forall i :: 0 <= i <= k ==> (replies + [reply])[..i] == replies[..i];
      calls, replies, trace := calls + [c], replies + [reply], trace + [after];
    }
    forall k | 0 <= k < steps && Closes(calls[k]) && calls[k].mark.owner != j ensures !replies[k].ok {
      ForeignTokenRefused(j, calls, replies, trace, k);
    }
    forall i, k | 0 <= i < k < steps && replies[i].ok && Closes(calls[i]) && Names(calls[k], calls[i].mark)
      ensures !replies[k].ok && (!j.reason.NoFailure? || j.closed)
    {
      StaleTokenRefused(j, calls, replies, trace, i, k);
    }
  }

  /** The reply to call `k`, judged by the account of the calls up to it. */
  ghost predicate CallFits(calls: seq<Call>, k: nat, failed: bool, reply: Reply)
    requires k < |calls|
  {
    ReplyFits(NaiveRun(calls[..k + 1]), failed, calls[k], reply)
  }

  lemma FitsGrows(
    calls: seq<Call>, replies: seq<Reply>, trace: seq<Snapshot>, c: Call, reply: Reply, after: Snapshot, view: Naive)
    requires |replies| == |calls| && |trace| == |calls| + 1
    requires forall i :: 0 <= i < |calls| ==> CallFits(calls, i, trace[i + 1].failed, replies[i])
    requires ReplyFits(view, after.failed, c, reply) && (!after.failed ==> view == NaiveRun(calls + [c]))
    ensures forall i :: 0 <= i <= |calls| ==>
      CallFits(calls + [c], i, (trace + [after])[i + 1].failed, (replies + [reply])[i])
  {
    hide NaiveRun, EventFits, NaiveResult;
    var calls' := calls + [c];
    forall i | 0 <= i <= |calls| ensures CallFits(calls', i, (trace + [after])[i + 1].failed, (replies + [reply])[i]) {
      if i < |calls| {
        assert CallFits(calls, i, trace[i + 1].failed, replies[i]);
        assert calls'[..i + 1] == calls[..i + 1];
      } else {
        assert calls'[..i + 1] == calls';
      }
    }
  }

  /** One call of a client, with the snapshot after it. */
  method MakeCall(j: EmissionJournal, c: Call, ghost before: Snapshot) returns (reply: Reply, ghost after: Snapshot)
    requires j.Valid() && !j.finalizing
    requires before == Snapshot(MarksOf(j.transactions), j.serial, !j.reason.NoFailure?, j.closed)
    modifies j
    ensures j.Valid() && !j.finalizing
    ensures after == Snapshot(MarksOf(j.transactions), j.serial, !j.reason.NoFailure?, j.closed)
    ensures Stacked(after.open, j, after.serial) && TokenCall(before, c, reply, after)
    ensures !old(j.reason).NoFailure? ==> !j.reason.NoFailure?
    ensures j.reason.NoFailure? ==> j.View() == NaiveStep(old(j.View()), c)
    ensures ReplyFits(j.View(), !j.reason.NoFailure?, c, reply)
  {
    hide EmissionJournal.Faithful, EmissionJournal.Final, TokenStep, NaiveStep, ReplyFits;
    if j.transactions != [] { MarksPop(j.transactions); }
    reply := j.Perform(c);
    after := Snapshot(MarksOf(j.transactions), j.serial, !j.reason.NoFailure?, j.closed);
    Answers(j, c, reply);
  }

  lemma Answers(j: EmissionJournal, c: Call, reply: Reply)
    requires j.Valid() && !j.finalizing
    requires c.DoEvent? ==> reply.event == j.EventNow(c.index)
    requires c.DoResult? || c.DoFinalize? ==> reply.result == Some(j.ResultNow())
    ensures ReplyFits(j.View(), !j.reason.NoFailure?, c, reply)
  {
    hide EmissionJournal.Valid, NaiveResult, EventFits, Observed;
    if j.reason.NoFailure? {
      ResultFits(j);
      if c.DoEvent? { EventsFit(j, c.index); }
    }
  }

  lemma HistoryGrows(
    j: EmissionJournal, calls: seq<Call>, replies: seq<Reply>, trace: seq<Snapshot>,
    c: Call, reply: Reply, after: Snapshot)
    requires TokenHistory(j, calls, replies, trace)
    requires Stacked(after.open, j, after.serial) && TokenCall(trace[|calls|], c, reply, after)
    ensures TokenHistory(j, calls + [c], replies + [reply], trace + [after])
  {
    hide Stacked, TokenCall;
  }
}
