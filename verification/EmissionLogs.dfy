/**
 A naive account of emission recording: a log lists the retained recording calls, and its
 replay appends observations and spans without any undo.  The journal's truncations are
 justified by what replaying a closed prefix leaves untouched.
 */
module EmissionLogs {
  import opened Transfers

  datatype ObservationKind = EffectSeen | GPWritesSeen | GapSeen
  datatype Observation = Observation(kind: ObservationKind, effect: Effect, writes: nat, span: int)
  datatype Span = Span(start: int, end: int)

  datatype Emit = Begin(start: int) | Observe(kind: ObservationKind, effect: Effect, writes: nat) | End(end: int)

  datatype Contents = Contents(events: seq<Observation>, spans: seq<Span>, cursor: int, gaps: int)

  const EMPTY := Contents([], [], 0, 0)

  /** An emission has begun and not ended. */
  predicate Open(log: seq<Emit>) {
    log != [] && !log[|log| - 1].End?
  }

  predicate Proper(log: seq<Emit>) {
    log == [] ||
    var init := log[..|log| - 1];
    && Proper(init)
    && match log[|log| - 1]
       case Begin(start) => !Open(init) && start == Replay(init).cursor
       case Observe(_, _, _) => Open(init)
       case End(end) => Open(init) && end > Replay(init).cursor
  }

  function Replay(log: seq<Emit>): Contents {
    if log == [] then EMPTY
    else
      var c := Replay(log[..|log| - 1]);
      match log[|log| - 1]
      case Begin(start) => c.(spans := c.spans + [Span(start, start)])
      case Observe(kind, effect, writes) =>
        c.(events := c.events + [Observation(kind, effect, writes, |c.spans| - 1)],
           gaps := if kind.GapSeen? then c.gaps + 1 else c.gaps)
      case End(end) =>
        if c.spans == [] then c.(cursor := end)
        else c.(spans := c.spans[|c.spans| - 1 := c.spans[|c.spans| - 1].(end := end)], cursor := end)
  }

  function GapCount(events: seq<Observation>): nat {
    if events == [] then 0
    else GapCount(events[..|events| - 1]) + (if events[|events| - 1].kind.GapSeen? then 1 else 0)
  }

  /** Closed spans lie end to end from 0 up to the cursor; an open one starts there. */
  predicate Tiled(spans: seq<Span>, cursor: int, open: bool) {
    if spans == [] then cursor == 0 && !open
    else
      var last := spans[|spans| - 1];
      if open then last == Span(cursor, cursor) && Tiled(spans[..|spans| - 1], cursor, false)
      else last.end == cursor && last.start < last.end && Tiled(spans[..|spans| - 1], last.start, false)
  }

  ghost predicate Sound(c: Contents, open: bool) {
    && Tiled(c.spans, c.cursor, open)
    && c.cursor >= 0
    && c.gaps == GapCount(c.events)
    && forall i :: 0 <= i < |c.events| ==> 0 <= c.events[i].span < |c.spans|
  }

  lemma SoundBegin(c: Contents)
    requires Sound(c, false)
    ensures Sound(c.(spans := c.spans + [Span(c.cursor, c.cursor)]), true)
  {
    assert (c.spans + [Span(c.cursor, c.cursor)])[..|c.spans|] == c.spans;
  }

  lemma SoundObserve(c: Contents, o: Observation)
    requires Sound(c, true) && o.span == |c.spans| - 1
    ensures Sound(c.(events := c.events + [o], gaps := if o.kind.GapSeen? then c.gaps + 1 else c.gaps), true)
  {
    assert (c.events + [o])[..|c.events|] == c.events;
  }

  lemma SoundEnd(c: Contents, end: int)
    requires Sound(c, true) && end > c.cursor
    ensures c.spans != []
    ensures Sound(c.(spans := c.spans[|c.spans| - 1 := c.spans[|c.spans| - 1].(end := end)], cursor := end), false)
  {
    var spans := c.spans[|c.spans| - 1 := c.spans[|c.spans| - 1].(end := end)];
    assert spans[..|c.spans| - 1] == c.spans[..|c.spans| - 1];
  }

  /** The invariants of a proper replay. */
  lemma {:induction false} ReplayInvariants(log: seq<Emit>)
    requires Proper(log)
    ensures Sound(Replay(log), Open(log))
  {
    if log != [] {
      hide Sound;
      var init := log[..|log| - 1];
      ReplayInvariants(init);
      var c := Replay(init);
      match log[|log| - 1]
      case Begin(start) => SoundBegin(c);
      case Observe(kind, effect, writes) => SoundObserve(c, Observation(kind, effect, writes, |c.spans| - 1));
      case End(end) => SoundEnd(c, end);
    }
  }

  /** Tiled spans, read by index. */
  lemma {:induction false} TiledByIndex(spans: seq<Span>, cursor: int)
    requires Tiled(spans, cursor, false)
    ensures spans != [] ==> spans[0].start == 0 && spans[|spans| - 1].end == cursor
    ensures forall i :: 0 <= i < |spans| ==> 0 <= spans[i].start < spans[i].end <= cursor
    ensures forall i :: 0 < i < |spans| ==> spans[i - 1].end == spans[i].start
    ensures cursor >= 0
  {
    if spans != [] {
      var last := spans[|spans| - 1];
      var init := spans[..|spans| - 1];
      TiledByIndex(init, last.start);
      assert forall i :: 0 <= i < |init| ==> init[i] == spans[i];
    }
  }

  /** Replaying a closed prefix fixes a prefix of the contents: later calls only append. */
  lemma {:induction false} ClosedPrefix(log: seq<Emit>, n: nat)
    requires Proper(log) && n <= |log| && !Open(log[..n])
    ensures var c, c0 := Replay(log), Replay(log[..n]);
            && c0.events <= c.events && c0.spans <= c.spans
            && (n < |log| && Open(log) ==> |c0.spans| < |c.spans|)
    ensures Proper(log[..n])
  {
    if n == |log| {
      assert log[..n] == log;
    } else {
      var init := log[..|log| - 1];
      assert init[..n] == log[..n];
      ClosedPrefix(init, n);
    }
  }

  /** Cutting the contents back to the sizes of a closed prefix gives exactly its replay. */
  lemma TruncationIsReplay(log: seq<Emit>, n: nat)
    requires Proper(log) && n <= |log| && !Open(log[..n])
    ensures var c, c0 := Replay(log), Replay(log[..n]);
            && |c0.events| <= |c.events| && c.events[..|c0.events|] == c0.events
            && |c0.spans| <= |c.spans| && c.spans[..|c0.spans|] == c0.spans
  {
    ClosedPrefix(log, n);
  }

  /** Where the open emission began. */
  function OpenAt(log: seq<Emit>): nat
    requires Proper(log) && Open(log)
    ensures OpenAt(log) < |log| && log[OpenAt(log)].Begin? && !Open(log[..OpenAt(log)])
  {
    if log[|log| - 1].Begin? then |log| - 1
    else
      var n := OpenAt(log[..|log| - 1]);
      assert log[..|log| - 1][..n] == log[..n];
      n
  }

  /** An open emission has added exactly one span, and kept the cursor. */
  lemma {:induction false} OpenSuffix(log: seq<Emit>)
    requires Proper(log) && Open(log)
    ensures var c, c0 := Replay(log), Replay(log[..OpenAt(log)]);
            |c.spans| == |c0.spans| + 1 && c.cursor == c0.cursor
  {
    if !log[|log| - 1].Begin? {
      var init := log[..|log| - 1];
      OpenSuffix(init);
      assert init[..OpenAt(init)] == log[..OpenAt(log)];
    }
  }

  /* ---------- One call more ---------- */

  /** The contents are the replay of a proper log. */
  ghost predicate Matches(c: Contents, log: seq<Emit>) {
    Proper(log) && c == Replay(log)
  }

  lemma MatchesBegin(c: Contents, log: seq<Emit>)
    requires Matches(c, log) && !Open(log)
    ensures var log' := log + [Begin(c.cursor)];
            && Matches(c.(spans := c.spans + [Span(c.cursor, c.cursor)]), log')
            && Open(log') && OpenAt(log') == |log| && log'[..|log|] == log
    ensures c.cursor >= 0
  {
    assert (log + [Begin(c.cursor)])[..|log|] == log;
    ReplayInvariants(log);
  }

  lemma MatchesObserve(c: Contents, log: seq<Emit>, kind: ObservationKind, effect: Effect, writes: nat)
    requires Matches(c, log) && Open(log)
    ensures var log' := log + [Observe(kind, effect, writes)];
            && Matches(c.(events := c.events + [Observation(kind, effect, writes, |c.spans| - 1)],
                          gaps := if kind.GapSeen? then c.gaps + 1 else c.gaps), log')
            && Open(log') && OpenAt(log') == OpenAt(log) && log'[..OpenAt(log)] == log[..OpenAt(log)]
  {
    assert (log + [Observe(kind, effect, writes)])[..|log|] == log;
  }

  lemma MatchesEnd(c: Contents, log: seq<Emit>, end: int)
    requires Matches(c, log) && Open(log) && end > c.cursor
    ensures c.spans != []
    ensures var log' := log + [End(end)];
            && Matches(c.(spans := c.spans[|c.spans| - 1 := c.spans[|c.spans| - 1].(end := end)], cursor := end), log')
            && !Open(log')
  {
    assert (log + [End(end)])[..|log|] == log;
    ReplayInvariants(log);
  }

  lemma MatchesAbort(c: Contents, log: seq<Emit>)
    requires Matches(c, log) && Open(log)
    ensures var log' := log[..OpenAt(log)];
            && |Replay(log').events| <= |c.events| && |c.spans| > 0
            && Matches(Contents(c.events[..|Replay(log').events|], c.spans[..|c.spans| - 1], c.cursor, Replay(log').gaps), log')
            && !Open(log')
  {
    TruncationIsReplay(log, OpenAt(log));
    OpenSuffix(log);
    ClosedPrefix(log, OpenAt(log));
  }

  lemma MatchesRollback(c: Contents, log: seq<Emit>, earlier: seq<Emit>)
    requires Matches(c, log) && earlier <= log && !Open(earlier)
    ensures var r := Replay(earlier);
            && |r.events| <= |c.events| && |r.spans| <= |c.spans|
            && Matches(Contents(c.events[..|r.events|], c.spans[..|r.spans|], r.cursor, r.gaps), earlier)
  {
    assert log[..|earlier|] == earlier;
    TruncationIsReplay(log, |earlier|);
    ClosedPrefix(log, |earlier|);
  }

  /* ---------- Which emission an observation belongs to ---------- */

  function Observed(log: seq<Emit>): nat {
    if log == [] then 0 else Observed(log[..|log| - 1]) + if log[|log| - 1].Observe? then 1 else 0
  }

  function Begun(log: seq<Emit>): nat {
    if log == [] then 0 else Begun(log[..|log| - 1]) + if log[|log| - 1].Begin? then 1 else 0
  }

  lemma {:induction false} ReplaySizes(log: seq<Emit>)
    ensures |Replay(log).events| == Observed(log) && |Replay(log).spans| == Begun(log)
  {
    if log != [] { ReplaySizes(log[..|log| - 1]); }
  }

  /** From `p` on, up to and including `q`, there is nothing but observations after the Begin at `p`. */
  ghost predicate Observing(log: seq<Emit>, p: nat, q: nat) {
    p <= q < |log| && log[p].Begin? && forall k :: p < k <= q ==> log[k].Observe?
  }

  /** The emission that begins at `p` and ends at `t`. */
  ghost predicate Emission(log: seq<Emit>, p: nat, t: nat) {
    p < t < |log| && Observing(log, p, t - 1) && log[t].End?
  }

  lemma {:induction false} OpenObserving(log: seq<Emit>)
    requires Proper(log) && Open(log)
    ensures Observing(log, OpenAt(log), |log| - 1)
  {
    if !log[|log| - 1].Begin? {
      OpenObserving(log[..|log| - 1]);
    }
  }

  /** An open emission is the newest span. */
  lemma {:induction false} OpenIsNewest(log: seq<Emit>)
    requires Proper(log) && Open(log)
    ensures Begun(log) == Begun(log[..OpenAt(log)]) + 1
  {
    if !log[|log| - 1].Begin? {
      var init := log[..|log| - 1];
      OpenIsNewest(init);
      assert init[..OpenAt(init)] == log[..OpenAt(log)];
    }
  }

  /** The observation numbered `i` is the one preceded by i others; its span is that of the latest Begin. */
  lemma {:induction false} ObservationAt(log: seq<Emit>, i: nat) returns (p: nat, q: nat)
    requires Proper(log) && i < |Replay(log).events|
    ensures p < q < |log| && Observing(log, p, q) && Observed(log[..q]) == i
    ensures log[q].Observe? && Replay(log).events[i] == Observation(log[q].kind, log[q].effect, log[q].writes, Begun(log[..p]))
  {
    var init := log[..|log| - 1];
    ReplaySizes(init);
    ReplaySizes(log);
    if i < |Replay(init).events| {
      p, q := ObservationAt(init, i);
      assert init[..q] == log[..q] && init[..p] == log[..p];
    } else {
      p, q := OpenAt(log), |log| - 1;
      OpenObserving(log);
      OpenIsNewest(log);
    }
  }

  lemma {:induction false} BegunGrows(log: seq<Emit>, p: nat, o: nat)
    requires p < o <= |log| && log[p].Begin?
    ensures Begun(log[..p]) + 1 <= Begun(log[..o])
  {
    assert log[..o][..o - 1] == log[..o - 1];
    if p < o - 1 { BegunGrows(log, p, o - 1); }
  }

  /** An earlier Begin than the open one is not the newest span. */
  lemma NotNewest(log: seq<Emit>, p: nat)
    requires Proper(log) && Open(log) && p < |log| && log[p].Begin? && p != OpenAt(log)
    ensures Begun(log[..p]) + 1 < |Replay(log).spans|
  {
    OpenObserving(log);
    OpenIsNewest(log);
    ReplaySizes(log);
    BegunGrows(log, p, OpenAt(log));
  }

  /** The span of a Begin starts where it says, and ends where its emission does. */
  lemma {:induction false} SpanOfBegin(log: seq<Emit>, p: nat) returns (t: nat)
    requires Proper(log) && p < |log| && log[p].Begin?
    ensures var n := Begun(log[..p]); n < |Replay(log).spans| && Replay(log).spans[n].start == log[p].start
    ensures Open(log) && p == OpenAt(log) ==> Begun(log[..p]) + 1 == |Replay(log).spans|
    ensures !(Open(log) && p == OpenAt(log)) ==>
      Emission(log, p, t) && Replay(log).spans[Begun(log[..p])].end == log[t].end
  {
    var init, last := log[..|log| - 1], log[|log| - 1];
    ReplaySizes(init);
    ReplaySizes(log);
    t := 0;
    if p == |log| - 1 {
      assert log[..p] == init;
    } else {
      assert init[..p] == log[..p];
      t := SpanOfBegin(init, p);
      if Open(init) && p == OpenAt(init) {
        OpenObserving(init);
        if last.End? { t := |log| - 1; }
      } else {
        assert init[t] == log[t];
        if last.End? { NotNewest(init, p); }
      }
    }
  }

  /** Every observation of a closed log was recorded during one emission, whose boundaries are those of its span. */
  lemma ObservationEmission(log: seq<Emit>, i: nat) returns (p: nat, q: nat, t: nat)
    requires Proper(log) && !Open(log) && i < |Replay(log).events|
    ensures p < q < t && Emission(log, p, t) && Observed(log[..q]) == i && log[q].Observe?
    ensures var o := Replay(log).events[i];
            && o.kind == log[q].kind && o.effect == log[q].effect && o.writes == log[q].writes
            && 0 <= o.span < |Replay(log).spans| && Replay(log).spans[o.span] == Span(log[p].start, log[t].end)
  {
    p, q := ObservationAt(log, i);
    t := SpanOfBegin(log, p);
    assert log[t].End? && forall k :: p < k <= q ==> log[k].Observe?;
  }
}
