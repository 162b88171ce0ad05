/**
 The temporal join of samples and lifecycle events (profile/samples.go): each sample is
 charged to what was live at its own timestamp.
 */
module Samples {
  import opened Options
  import opened FiniteSets
  import opened Sorting
  import opened Words
  import opened UnwindRules
  import opened CodeImages
  import opened LiveSets
  import opened LiveImages
  import opened RowKeys
  import opened Charges
  import opened Ledgers
  import opened Reports

  /* ---------- The join, without tables ---------- */

  predicate EventLess(a: Event, b: Event) {
    if a.timestamp == b.timestamp then a.sequence < b.sequence else a.timestamp < b.timestamp
  }

  predicate SampleLess(a: Sample, b: Sample) {
    a.timestamp < b.timestamp
  }

  ghost predicate EventOk(e: Event) {
    if e.kind == "load" then
      e.image.Some? && e.imageID != 0 && e.image.value.id == e.imageID && ImageValid(e.image.value)
    else
      e.kind == "retire"
  }

  ghost predicate EventsOk(events: seq<Event>, n: int) {
    forall i :: 0 <= i < n && i < |events| ==> EventOk(events[i])
  }

  /** The events at or before t, in order. */
  function UpTo(events: seq<Event>, t: int): (r: seq<Event>)
    ensures r <= events
    ensures forall e :: e in r ==> e.timestamp <= t
    ensures |r| < |events| ==> events[|r|].timestamp > t
  {
    if |events| == 0 || events[0].timestamp > t then [] else [events[0]] + UpTo(events[1..], t)
  }

  /** How many events have happened by time t. */
  ghost predicate Cut(events: seq<Event>, t: int, k: int) {
    && 0 <= k <= |events|
    && (forall i :: 0 <= i < k ==> events[i].timestamp <= t)
    && (forall i :: k <= i < |events| ==> events[i].timestamp > t)
  }

  ghost predicate InTime(events: seq<Event>) {
    forall i, j :: 0 <= i < j < |events| ==> events[i].timestamp <= events[j].timestamp
  }

  /** Events of one instant come in journal order. */
  ghost predicate InSequence(events: seq<Event>) {
    forall i, j :: 0 <= i < j < |events| && events[i].timestamp == events[j].timestamp ==> events[i].sequence <= events[j].sequence
  }

  ghost predicate SamplesInTime(samples: seq<Sample>) {
    forall i, j :: 0 <= i < j < |samples| ==> samples[i].timestamp <= samples[j].timestamp
  }

  /** At a sample's time the live set is disjoint, and its counter is charged to that set. */
  ghost predicate ChargedAt(events: seq<Event>, s: Sample, c: Charge) {
    forall k :: Cut(events, s.timestamp, k) ==> Charged(LiveAfter(events, k), s.pc, c)
  }

  ghost predicate DisjointAt(events: seq<Event>, t: int) {
    forall k :: Cut(events, t, k) ==> Disjoint(LiveAfter(events, k))
  }

  ghost predicate Attributed(events: seq<Event>, samples: seq<Sample>, charges: seq<Charge>) {
    |charges| == |samples| && forall i :: 0 <= i < |samples| ==> ChargedAt(events, samples[i], charges[i])
  }

  ghost predicate WithinLimits(charges: seq<Charge>, limits: Limits) {
    && |RowKeysOf(charges)| <= limits.rows
    && |BucketsOf(charges)| <= limits.hotPCs
    && InlineTotal(charges) <= limits.metadata
  }

  function TotalWeight(samples: seq<Sample>): nat {
    if |samples| == 0 then 0 else TotalWeight(samples[..|samples| - 1]) + samples[|samples| - 1].period
  }

  /** When the join succeeds, in terms of events and samples already in time order. */
  ghost predicate Resolvable(events: seq<Event>, samples: seq<Sample>, limits: Limits) {
    && EventsOk(events, |events|)
    && (forall i :: 0 <= i < |samples| ==> DisjointAt(events, samples[i].timestamp))
    && TotalWeight(samples) <= MAX_UINT64
    && exists charges :: Attributed(events, samples, charges) && WithinLimits(charges, limits)
  }

  lemma CutUnique(events: seq<Event>, t: int, k: int, l: int)
    requires Cut(events, t, k) && Cut(events, t, l)
    ensures k == l
  {
    assert (k < |events| ==> events[k].timestamp > t) && (l < |events| ==> events[l].timestamp > t);
  }

  lemma {:induction false} LiveStaysValid(events: seq<Event>, k: nat)
    requires k <= |events| && EventsOk(events, k)
    ensures LiveValid(LiveAfter(events, k))
    decreases k
  {
    if k > 0 {
      LiveStaysValid(events, k - 1);
      assert EventOk(events[k - 1]);
      hide ImageValid;
    }
  }

  lemma {:induction false} EverythingWeighs(charges: seq<Charge>, samples: seq<Sample>)
    requires |charges| == |samples|
    ensures TallyOf(charges, samples, Everything).weight == TotalWeight(samples)
    decreases |charges|
  {
    if |charges| > 0 { EverythingWeighs(charges[..|charges| - 1], samples[..|samples| - 1]); }
  }

  lemma {:induction false} WeightGrows(samples: seq<Sample>, n: nat)
    requires n <= |samples|
    ensures TotalWeight(samples[..n]) <= TotalWeight(samples)
    decreases |samples|
  {
    if n == |samples| {
      assert samples[..n] == samples;
    } else {
      WeightGrows(samples[..|samples| - 1], n);
      assert samples[..|samples| - 1][..n] == samples[..n];
    }
  }

  /** Charges fit the limits only if every prefix of them does. */
  lemma {:induction false} PrefixWithinLimits(charges: seq<Charge>, n: nat, limits: Limits)
    requires n <= |charges| && WithinLimits(charges, limits)
    ensures WithinLimits(charges[..n], limits)
    decreases |charges|
  {
    hide RowKeysOf, BucketsOf, InlineTotal, KeyOf, CallersOf;
    if n == |charges| {
      assert charges[..n] == charges;
    } else {
      var front, c := charges[..|charges| - 1], charges[|charges| - 1];
      assert charges == front + [c];
      RowKeysStep(front, c);
      BucketsStep(front, c);
      InlineStep(front, c);
      SubsetSize(RowKeysOf(front), RowKeysOf(charges));
      SubsetSize(BucketsOf(front), BucketsOf(charges));
      PrefixWithinLimits(front, n, limits);
      assert front[..n] == charges[..n];
    }
  }

  /** Attribution is determined wherever the events are valid and the live sets disjoint. */
  lemma AttributionUnique(events: seq<Event>, s: Sample, k: nat, c: Charge, d: Charge)
    requires Cut(events, s.timestamp, k) && EventsOk(events, k) && Disjoint(LiveAfter(events, k))
    requires ChargedAt(events, s, c) && ChargedAt(events, s, d)
    ensures c == d
  {
    LiveStaysValid(events, k);
    ChargedUnique(LiveAfter(events, k), s.pc, c, d);
  }

  /* ---------- The running tables ---------- */

  datatype Book = Book(report: Report, index: map<string, nat>, hot: HotMap, hotCount: nat, inlineCount: nat)

  ghost predicate Totals(report: Report, charges: seq<Charge>, samples: seq<Sample>)
    requires |charges| == |samples|
  {
    && report.Sum() == TallyOf(charges, samples, Everything)
    && report.UnknownSum() == TallyOf(charges, samples, Unknown)
  }

  ghost predicate BookOk(b: Book, charges: seq<Charge>, samples: seq<Sample>) {
    && Fits(charges, samples)
    && Totals(b.report, charges, samples)
    && RowsOk(b.report.rows, b.index, RowKeysOf(charges), charges, samples)
    && HotOk(b.hot, RowKeysOf(charges), BucketsOf(charges), charges, samples)
    && RowsFrom(b.report.rows, charges) && HotFrom(b.hot, charges)
    && b.hotCount == |BucketsOf(charges)| && b.inlineCount == InlineTotal(charges)
  }

  method CountTotals(r: Report, c: Charge, s: Sample, ghost charges: seq<Charge>, ghost samples: seq<Sample>) returns (r': Report)
    requires |charges| == |samples| && Fits(charges + [c], samples + [s]) && Totals(r, charges, samples)
    ensures Totals(r', charges + [c], samples + [s])
    ensures r'.rows == r.rows && r'.unit == r.unit
  {
    hide TallyOf, Tally.Plus, One, Fits;
    TallyStep(charges, samples, c, s, Everything);
    TallyStep(charges, samples, c, s, Unknown);
    Room(charges, samples, c, s, Everything);
    Bumped(r.Sum(), s.period);
    r' := r.(samples := r.samples + 1, weight := r.weight + s.period);
    if c.Missed? {
      Room(charges, samples, c, s, Unknown);
      Bumped(r.UnknownSum(), s.period);
      r' := r'.(unknownSamples := r.unknownSamples + 1, unknownWeight := r.unknownWeight + s.period);
    } else {
      PlusNothing(r.UnknownSum(), s.period);
    }
  }

  lemma Bumped(t: Tally, period: nat)
    ensures t.Plus(One(true, period)) == Tally(t.samples + 1, t.weight + period)
  {
  }

  /** Adds one charged sample to the totals, its row and its hot program counter. */
  method Record(b: Book, c: Charge, s: Sample, limits: Limits, ghost charges: seq<Charge>, ghost samples: seq<Sample>)
    returns (ok: bool, b': Book)
    requires BookOk(b, charges, samples) && Fits(charges + [c], samples + [s]) && WithinLimits(charges, limits)
    requires c.Hit? ==> ImageValid(c.image)
    ensures ok <==> WithinLimits(charges + [c], limits)
    ensures ok ==> BookOk(b', charges + [c], samples + [s]) && b'.report.unit == b.report.unit
  {
    hide Fits, Totals, RowsOk, HotOk, RowsFrom, HotFrom, RowKeysOf, BucketsOf, InlineTotal, ImageValid, KeyOf;
    FitsLength(charges, samples);
    RowKeysStep(charges, c);
    BucketsStep(charges, c);
    InlineStep(charges, c);
    var report := CountTotals(b.report, c, s, charges, samples);
    if c.Missed? {
      assert charges + [c] == charges + [Missed];
      RowsMissed(report.rows, b.index, RowKeysOf(charges), charges, samples, s);
      HotMissed(b.hot, RowKeysOf(charges), BucketsOf(charges), charges, samples, s);
      RowsFromMissed(report.rows, charges, c);
      HotFromStays(b.hot, charges, c);
      return true, b.(report := report);
    }
    var rowOk, rows, index := ChargeRow(report.rows, b.index, c, s, limits.rows, charges, samples);
    b' := b;
    if !rowOk { return false, b'; }
    var pcOk, hot, hotCount, inlineCount := ChargePc(b.hot, b.hotCount, b.inlineCount, c, s, limits, charges, samples);
    if !pcOk { return false, b'; }
    TotalsRows(report, report.(rows := rows), charges + [c], samples + [s]);
    b' := Book(report.(rows := rows), index, hot, hotCount, inlineCount);
    ok := true;
  }

  lemma FitsLength(charges: seq<Charge>, samples: seq<Sample>)
    requires Fits(charges, samples)
    ensures |charges| == |samples|
  {
  }

  lemma TotalsRows(r: Report, r': Report, charges: seq<Charge>, samples: seq<Sample>)
    requires |charges| == |samples| && Totals(r, charges, samples) && r'.Sum() == r.Sum() && r'.UnknownSum() == r.UnknownSum()
    ensures Totals(r', charges, samples)
  {
  }

  /* ---------- Lifecycle batches ---------- */

  /** The index has handled exactly the first `cursor` events. */
  ghost predicate Synced(index: Index, events: seq<Event>, cursor: int)
    reads index, index.images, index.tree
  {
    && index.Valid() && index.events == events && index.cursor <= cursor
    && 0 <= cursor <= |events| && EventsOk(events, cursor) && index.live == LiveAfter(events, cursor)
  }

  method ValidateEvent(e: Event) returns (ok: bool)
    ensures ok <==> EventOk(e)
  {
    if e.kind == "load" {
      if e.image.None? || e.imageID == 0 || e.image.value.id != e.imageID { return false; }
      ok := ValidateImage(e.image.value);
    } else {
      ok := e.kind == "retire";
    }
  }

  /** Applies one event, unless it is invalid. */
  method Apply(index: Index, events: seq<Event>, cursor: nat) returns (ok: bool, position: Option<int>)
    requires Synced(index, events, cursor) && cursor < |events|
    modifies index, index.images, index.tree
    ensures ok <==> EventOk(events[cursor])
    ensures ok ==> Synced(index, events, cursor + 1)
    ensures ok && position.Some? ==> 0 <= position.value < index.images.Length
    ensures ok ==> Batch(old(index.images[..]), index.images[..], if position.Some? then {position.value} else {})
  {
    hide Index.Valid, Batch, EventOk, LiveAfter, Loaded;
    var e := events[cursor];
    EventKinds(e);
    LiveNext(events, cursor);
    ok := ValidateEvent(e);
    position := None;
    if !ok { return; }
    if e.kind == "load" {
      var p := index.Load(cursor, e.image.value);
      position := Some(p);
    } else {
      index.Retire(e.imageID);
    }
  }

  lemma EventKinds(e: Event)
    ensures EventOk(e) ==> e.kind == "load" || e.kind == "retire"
    ensures EventOk(e) && e.kind == "load" ==> IsLoad(e)
  {
  }

  lemma LiveNext(events: seq<Event>, k: nat)
    requires k < |events|
    ensures LiveAfter(events, k + 1) == AfterEvent(LiveAfter(events, k), events[k])
  {
  }

  function Positions(changed: seq<int>): set<int> {
    set p | p in changed
  }

  /** Applies every event up to a sample's time. */
  method Advance(index: Index, events: seq<Event>, start: nat, t: UInt64) returns (ok: bool, cursor: nat, changed: seq<int>)
    requires Synced(index, events, start) && InTime(events) && start <= |events|
    requires forall i :: 0 <= i < start ==> events[i].timestamp <= t
    modifies index, index.images, index.tree
    ensures !ok ==> !EventsOk(events, |events|)
    ensures ok ==> Synced(index, events, cursor) && Cut(events, t, cursor)
    ensures ok ==> Batch(old(index.images[..]), index.images[..], Positions(changed))
  {
    hide Synced, Batch, EventOk;
    ok, cursor, changed := true, start, [];
    BatchNone(index.images[..]);
    assert Positions(changed) == {};
    while cursor < |events| && events[cursor].timestamp <= t
      invariant start <= cursor <= |events|
      invariant Synced(index, events, cursor)
      invariant forall i :: 0 <= i < cursor ==> events[i].timestamp <= t
      invariant Batch(old(index.images[..]), index.images[..], Positions(changed))
    {
      ghost var was := index.images[..];
      var applied, position := Apply(index, events, cursor);
      if !applied { return false, cursor, changed; }
      ghost var more := if position.Some? then {position.value} else {};
      BatchThen(old(index.images[..]), was, index.images[..], Positions(changed), more);
      ghost var before := Positions(changed);
      if position.Some? { changed := changed + [position.value]; }
      assert Positions(changed) == before + more;
      cursor := cursor + 1;
    }
  }

  method CheckBatch(index: Index, changed: seq<int>) returns (ok: bool)
    requires index.Valid() && forall p :: p in Positions(changed) ==> 0 <= p < index.images.Length
    ensures ok <==> AllPass(index.images[..], Positions(changed))
  {
    hide Index.Valid, Passes;
    for i := 0 to |changed|
      invariant forall j :: 0 <= j < i ==> changed[j] in Positions(changed) && Passes(index.images[..], changed[j])
    {
      assert changed[i] in Positions(changed);
      var passes := index.CheckLoad(changed[i]);
      if !passes { return false; }
    }
    ok := true;
  }

  /* ---------- One sample ---------- */

  /** Finds the live image and region of a program counter. */
  method Attribute(index: Index, pc: UInt64) returns (c: Charge)
    requires index.Valid() && LiveValid(index.live) && Disjoint(index.live)
    modifies index`last
    ensures index.Valid()
    ensures Charged(index.live, pc, c)
    ensures c.Hit? ==> ImageValid(c.image)
  {
    hide Index.Valid, ImageValid, Disjoint;
    var found := index.Lookup(pc);
    if found.None? || pc - found.value.base >= found.value.size { return Missed; }
    var im := found.value;
    var offset := pc - im.base;
    ValidTiled(im);
    var region := FindRegion(im.regions, im.size, offset);
    if region.kind == "padding" || region.kind == "literal-data" || region.kind == "unknown" {
      return Missed;
    }
    c := Hit(im, region, offset);
  }

  lemma ValidTiled(im: Image)
    requires ImageValid(im)
    ensures Tiled(im.regions, im.size)
  {
  }

  /** A batch's checks pass exactly when the set it leaves live is disjoint. */
  lemma BatchDecides(before: Slots, after: Slots, bases: seq<UInt64>, active: map<UInt64, int>, live: Live, changed: set<int>)
    requires SlotsDisjoint(before) && Batch(before, after, changed)
    requires Indexed(after, bases, active, live) && BasesAscend(bases)
    ensures AllPass(after, changed) <==> Disjoint(live)
    ensures Disjoint(live) ==> SlotsDisjoint(after)
  {
    IndexedOrdered(after, bases, active, live);
    BatchDisjoint(before, after, changed);
    hide Ordered, Batch, AllPass, SlotsDisjoint, Disjoint, Indexed;
    if SlotsDisjoint(after) { SlotsToLive(after, bases, active, live); }
    if Disjoint(live) { LiveToSlots(after, bases, active, live); }
  }

  /** Brings the index to a sample's time; fails exactly on an invalid event or an overlap. */
  method Catch(index: Index, events: seq<Event>, start: nat, t: UInt64) returns (ok: bool, cursor: nat)
    requires Synced(index, events, start) && InTime(events) && start <= |events|
    requires forall i :: 0 <= i < start ==> events[i].timestamp <= t
    requires SlotsDisjoint(index.images[..])
    modifies index, index.images, index.tree
    ensures !ok ==> !EventsOk(events, |events|) || !DisjointAt(events, t)
    ensures ok ==> Synced(index, events, cursor) && Cut(events, t, cursor)
    ensures ok ==> Disjoint(index.live) && SlotsDisjoint(index.images[..])
  {
    hide EventOk, SlotsDisjoint, Disjoint, AllPass, Batch, LiveAfter;
    ghost var before := index.images[..];
    var changed;
    ok, cursor, changed := Advance(index, events, start, t);
    if !ok { return; }
    BatchPositions(before, index.images[..], Positions(changed));
    ok := CheckBatch(index, changed);
    BatchDecides(before, index.images[..], index.addresses, index.index, index.live, Positions(changed));
  }

  lemma BatchPositions(before: Slots, after: Slots, changed: set<int>)
    requires Batch(before, after, changed)
    ensures forall p :: p in changed ==> 0 <= p < |after|
  {
  }

  /* ---------- Finishing the report ---------- */

  predicate PcLess(a: HotPc, b: HotPc) {
    a.offset < b.offset
  }

  /** A row's hot program counters, taken from the map in any order and sorted. */
  method Collect(hot: map<UInt64, HotPc>) returns (pcs: seq<HotPc>)
    requires forall o :: o in hot ==> hot[o].offset == o
    ensures PcsAscend(pcs) && Lists(hot, pcs)
  {
    hide Sort;
    pcs := [];
    var rest := hot.Keys;
    while rest != {}
      invariant rest <= hot.Keys
      invariant forall pc :: pc in pcs ==> pc.offset in hot && pc.offset !in rest && hot[pc.offset] == pc
      invariant forall o :: o in hot && o !in rest ==> hot[o] in pcs
      invariant Distinct(pcs)
      decreases |rest|
    {
      var o :| o in rest;
      pcs := pcs + [hot[o]];
      rest := rest - {o};
    }
    CollectSorted(hot, pcs);
    pcs := Sort(PcLess, pcs);
  }

  lemma PcLessWeak()
    ensures StrictWeak(PcLess)
  {
  }

  ghost predicate Lists(hot: map<UInt64, HotPc>, pcs: seq<HotPc>) {
    && (forall pc :: pc in pcs ==> pc.offset in hot && hot[pc.offset] == pc)
    && (forall o :: o in hot ==> hot[o] in pcs)
  }

  lemma CollectSorted(hot: map<UInt64, HotPc>, pcs: seq<HotPc>)
    requires Lists(hot, pcs) && Distinct(pcs)
    ensures Lists(hot, Sort(PcLess, pcs))
    ensures PcsAscend(Sort(PcLess, pcs))
  {
    hide Sort, StrictWeak;
    PcLessWeak();
    SortMembers(PcLess, pcs);
    SortSorted(PcLess, pcs);
    SortDistinct(PcLess, pcs);
    var sorted := Sort(PcLess, pcs);
    assert forall i :: 0 <= i < |sorted| ==> sorted[i] in pcs;
    assert forall i, j :: 0 <= i < j < |sorted| ==> !PcLess(sorted[j], sorted[i]);
  }

  method FinishRow(row: Row, hot: HotMap, ghost charges: seq<Charge>, ghost samples: seq<Sample>) returns (r: Row)
    requires |charges| == |samples| && RowOk(row, charges, samples) && RowKey(row) in hot
    requires HotOk(hot, RowKeysOf(charges), BucketsOf(charges), charges, samples)
    requires RowFrom(row, charges) && HotFrom(hot, charges)
    ensures RowReported(r, charges, samples) && RowKey(r) == RowKey(row)
  {
    hide TallyOf, RowKeysOf, BucketsOf, RowKey, RowFrom, PcFrom;
    var key := RowKey(row);
    var pcs := Collect(hot[key]);
    r := row.(pcs := pcs);
    SameKey(row, r);
    RowFromSame(row, r, charges);
    forall i | 0 <= i < |pcs| ensures PcOk(pcs[i], key, pcs[i].offset, charges, samples) && PcFrom(pcs[i], key, charges) {
      assert pcs[i] in pcs && hot[key][pcs[i].offset] == pcs[i];
    }
    forall o | (key, o) in BucketsOf(charges) ensures exists i :: 0 <= i < |pcs| && pcs[i].offset == o {
      assert hot[key][o] in pcs && PcOk(hot[key][o], key, o, charges, samples);
    }
    assert PcsOk(pcs, key, charges, samples);
  }

  lemma SameKey(a: Row, b: Row)
    requires a.identity == b.identity
    ensures RowKey(a) == RowKey(b)
  {
  }

  method FinishRows(was: seq<Row>, index: map<string, nat>, hot: HotMap, ghost charges: seq<Charge>, ghost samples: seq<Sample>)
    returns (rows: seq<Row>)
    requires |charges| == |samples| && RowsOk(was, index, RowKeysOf(charges), charges, samples)
    requires HotOk(hot, RowKeysOf(charges), BucketsOf(charges), charges, samples)
    requires RowsFrom(was, charges) && HotFrom(hot, charges)
    ensures |rows| == |was|
    ensures forall j :: 0 <= j < |rows| ==> RowKey(rows[j]) == RowKey(was[j]) && RowReported(rows[j], charges, samples)
  {
    hide TallyOf, RowKeysOf, BucketsOf, RowKey, HotOk, RowsOk, RowReported, RowOk, RowFrom, HotFrom;
    rows := [];
    for i := 0 to |was|
      invariant |rows| == i
      invariant forall j :: 0 <= j < i ==> RowKey(rows[j]) == RowKey(was[j]) && RowReported(rows[j], charges, samples)
    {
      RowFacts(was, index, charges, samples, i);
      HotHasKey(hot, charges, samples, RowKey(was[i]));
      var r := FinishRow(was[i], hot, charges, samples);
      rows := rows + [r];
    }
  }

  /** Fills in every row and orders the rows by weight. */
  method Finish(b: Book, ghost charges: seq<Charge>, ghost samples: seq<Sample>) returns (report: Report)
    requires BookOk(b, charges, samples)
    ensures ReportOk(report, charges, samples) && report.unit == b.report.unit
  {
    hide TallyOf, RowKeysOf, BucketsOf, RowKey, HotOk, RowsOk, RowsFrom, HotFrom, RowReported, Fits, Sort, Sorted, HeaviestFirst, RowsReported;
    FitsLength(charges, samples);
    var rows := FinishRows(b.report.rows, b.index, b.hot, charges, samples);
    FinishedRows(b.report.rows, b.index, rows, charges, samples);
    SortedByWeight(Sort(RowLess, rows));
    report := b.report.(rows := Sort(RowLess, rows));
  }

  lemma RowFacts(rows: seq<Row>, index: map<string, nat>, charges: seq<Charge>, samples: seq<Sample>, i: int)
    requires |charges| == |samples| && RowsOk(rows, index, RowKeysOf(charges), charges, samples) && 0 <= i < |rows|
    ensures RowOk(rows[i], charges, samples) && RowKey(rows[i]) in RowKeysOf(charges)
  {
  }

  lemma HotHasKey(hot: HotMap, charges: seq<Charge>, samples: seq<Sample>, key: string)
    requires |charges| == |samples| && HotOk(hot, RowKeysOf(charges), BucketsOf(charges), charges, samples)
    ensures key in RowKeysOf(charges) ==> key in hot
  {
  }

  lemma FinishedRows(was: seq<Row>, index: map<string, nat>, rows: seq<Row>, charges: seq<Charge>, samples: seq<Sample>)
    requires |charges| == |samples| && RowsOk(was, index, RowKeysOf(charges), charges, samples) && |rows| == |was|
    requires forall j :: 0 <= j < |rows| ==> RowKey(rows[j]) == RowKey(was[j]) && RowReported(rows[j], charges, samples)
    ensures RowsReported(Sort(RowLess, rows), charges, samples)
    ensures Sorted(RowLess, Sort(RowLess, rows))
  {
    hide TallyOf, RowKeysOf, RowKey, RowReported, RowOk, Sort, Sorted, RowsOk, KeysDistinct;
    var sorted := Sort(RowLess, rows);
    SortMembers(RowLess, rows);
    SortSorted(RowLess, rows);
    FinishedKeys(was, index, rows, charges, samples);
    SortedKeys(rows, index);
    forall k | k in RowKeysOf(charges) ensures exists r :: r in sorted && RowKey(r) == k {
      assert rows[index[k]] in rows;
      assert rows[index[k]] in sorted;
    }
  }

  lemma FinishedKeys(was: seq<Row>, index: map<string, nat>, rows: seq<Row>, charges: seq<Charge>, samples: seq<Sample>)
    requires |charges| == |samples| && RowsOk(was, index, RowKeysOf(charges), charges, samples) && |rows| == |was|
    requires forall j :: 0 <= j < |rows| ==> RowKey(rows[j]) == RowKey(was[j])
    ensures forall i :: 0 <= i < |rows| ==> RowKey(rows[i]) in index && index[RowKey(rows[i])] == i
    ensures forall k :: k in RowKeysOf(charges) ==> k in index && index[k] < |rows| && RowKey(rows[index[k]]) == k
  {
    hide TallyOf, RowKeysOf, RowKey, RowOk;
    forall i | 0 <= i < |rows| ensures RowKey(rows[i]) in index && index[RowKey(rows[i])] == i {
      assert RowKey(was[i]) in index;
    }
  }

  lemma SortedKeys(rows: seq<Row>, index: map<string, nat>)
    requires forall i :: 0 <= i < |rows| ==> RowKey(rows[i]) in index && index[RowKey(rows[i])] == i
    ensures KeysDistinct(Sort(RowLess, rows))
  {
    hide RowKey, Sort;
    var sorted := Sort(RowLess, rows);
    SortMembers(RowLess, rows);
    SortDistinct(RowLess, rows);
    forall i, j | 0 <= i < j < |sorted| ensures RowKey(sorted[i]) != RowKey(sorted[j]) {
      assert sorted[i] in rows && sorted[j] in rows;
    }
  }

  /* ---------- The join ---------- */

  lemma CutExists(events: seq<Event>, t: int) returns (k: nat)
    requires InTime(events)
    ensures Cut(events, t, k)
  {
    k := 0;
    while k < |events| && events[k].timestamp <= t
      invariant k <= |events| && forall i :: 0 <= i < k ==> events[i].timestamp <= t
    {
      k := k + 1;
    }
  }

  /** If the join can succeed at all, charges made so far are the only ones possible, so they fit. */
  lemma LimitsForced(events: seq<Event>, samples: seq<Sample>, limits: Limits, mine: seq<Charge>)
    requires InTime(events) && |mine| <= |samples| && Attributed(events, samples[..|mine|], mine)
    requires Resolvable(events, samples, limits)
    ensures WithinLimits(mine, limits)
  {
    hide WithinLimits, ChargedAt, EventOk;
    var charges :| Attributed(events, samples, charges) && WithinLimits(charges, limits);
    forall j | 0 <= j < |mine| ensures mine[j] == charges[j] {
      var k := CutExists(events, samples[j].timestamp);
      assert DisjointAt(events, samples[j].timestamp);
      assert ChargedAt(events, samples[..|mine|][j], mine[j]);
      AttributionUnique(events, samples[j], k, mine[j], charges[j]);
    }
    assert mine == charges[..|mine|];
    PrefixWithinLimits(charges, |mine|, limits);
  }

  lemma WeightForced(events: seq<Event>, samples: seq<Sample>, limits: Limits, n: nat)
    requires n <= |samples| && Resolvable(events, samples, limits)
    ensures TotalWeight(samples[..n]) <= MAX_UINT64
  {
    WeightGrows(samples, n);
  }

  /** Where the join stands between two samples. */
  ghost predicate Joined(events: seq<Event>, samples: seq<Sample>, limits: Limits, i: int, cursor: int, b: Book, charges: seq<Charge>) {
    && 0 <= i <= |samples| && 0 <= cursor <= |events|
    && (if i == 0 then cursor == 0 else Cut(events, samples[i - 1].timestamp, cursor))
    && BookOk(b, charges, samples[..i]) && WithinLimits(charges, limits)
    && Attributed(events, samples[..i], charges)
    && (forall j :: 0 <= j < i ==> DisjointAt(events, samples[j].timestamp))
  }

  lemma JoinedBefore(events: seq<Event>, samples: seq<Sample>, limits: Limits, i: int, cursor: int, b: Book, charges: seq<Charge>)
    requires Joined(events, samples, limits, i, cursor, b, charges) && i < |samples| && SamplesInTime(samples)
    ensures cursor <= |events| && forall k :: 0 <= k < cursor ==> events[k].timestamp <= samples[i].timestamp
    ensures |charges| == i && b.report.weight == TotalWeight(samples[..i])
    ensures TotalWeight(samples[..i + 1]) == TotalWeight(samples[..i]) + samples[i].period
    ensures samples[..i + 1] == samples[..i] + [samples[i]]
  {
    EverythingWeighs(charges, samples[..i]);
    assert samples[..i + 1][..i] == samples[..i];
  }

  lemma JoinedNext(events: seq<Event>, samples: seq<Sample>, limits: Limits, i: int, cursor: int, b: Book, charges: seq<Charge>,
                   c: Charge, cursor': int, b': Book)
    requires Joined(events, samples, limits, i, cursor, b, charges) && i < |samples|
    requires Cut(events, samples[i].timestamp, cursor') && 0 <= cursor' <= |events|
    requires Disjoint(LiveAfter(events, cursor')) && Charged(LiveAfter(events, cursor'), samples[i].pc, c)
    requires BookOk(b', charges + [c], samples[..i] + [samples[i]]) && WithinLimits(charges + [c], limits)
    ensures Joined(events, samples, limits, i + 1, cursor', b', charges + [c])
  {
    hide BookOk, WithinLimits, Charged, Disjoint, LiveAfter;
    assert samples[..i + 1] == samples[..i] + [samples[i]];
    ChargedAtCut(events, samples[i], cursor', c);
    forall j | 0 <= j < i + 1 ensures ChargedAt(events, samples[..i + 1][j], (charges + [c])[j]) {
      if j < i { assert ChargedAt(events, samples[..i][j], charges[j]); }
    }
  }

  lemma ChargedAtCut(events: seq<Event>, s: Sample, k: int, c: Charge)
    requires Cut(events, s.timestamp, k) && Charged(LiveAfter(events, k), s.pc, c) && Disjoint(LiveAfter(events, k))
    ensures ChargedAt(events, s, c) && DisjointAt(events, s.timestamp)
  {
    forall l | Cut(events, s.timestamp, l) ensures l == k {
      CutUnique(events, s.timestamp, l, k);
    }
  }

  lemma AttributedNext(events: seq<Event>, samples: seq<Sample>, i: int, charges: seq<Charge>, c: Charge)
    requires 0 <= i < |samples| && Attributed(events, samples[..i], charges) && ChargedAt(events, samples[i], c)
    ensures Attributed(events, samples[..i + 1], charges + [c])
  {
    forall j | 0 <= j < i + 1 ensures ChargedAt(events, samples[..i + 1][j], (charges + [c])[j]) {
      if j < i { assert ChargedAt(events, samples[..i][j], charges[j]); }
    }
  }

  lemma FitsNext(charges: seq<Charge>, samples: seq<Sample>, c: Charge, s: Sample)
    requires |charges| == |samples| && |samples| + 1 < 0x8000_0000_0000_0000
    requires TotalWeight(samples + [s]) <= MAX_UINT64
    ensures Fits(charges + [c], samples + [s])
  {
    EverythingWeighs(charges + [c], samples + [s]);
  }

  /** One sample of the join; failure means that the join cannot succeed. */
  method JoinSample(index: Index, events: seq<Event>, samples: seq<Sample>, limits: Limits, i: nat, cursor: nat, b: Book, ghost charges: seq<Charge>)
    returns (ok: bool, cursor': nat, b': Book, ghost charges': seq<Charge>)
    requires InTime(events) && SamplesInTime(samples) && i < |samples| <= limits.samples
    requires Joined(events, samples, limits, i, cursor, b, charges)
    requires Synced(index, events, cursor) && SlotsDisjoint(index.images[..])
    modifies index, index.images, index.tree
    ensures !ok ==> !Resolvable(events, samples, limits)
    ensures ok ==> Joined(events, samples, limits, i + 1, cursor', b', charges') && b'.report.unit == b.report.unit
    ensures ok ==> Synced(index, events, cursor') && SlotsDisjoint(index.images[..])
  {
    hide Joined, SlotsDisjoint, Disjoint, BookOk, WithinLimits, Fits, Attributed, Charged, ChargedAt, LiveAfter, TotalWeight;
    b', charges' := b, charges;
    var s := samples[i];
    JoinedBefore(events, samples, limits, i, cursor, b, charges);
    ok, cursor' := Catch(index, events, cursor, s.timestamp);
    if !ok {
      hide EventsOk, DisjointAt;
      return;
    }
    if s.period > MAX_UINT64 - b.report.weight {
      if Resolvable(events, samples, limits) {
        WeightForced(events, samples, limits, i + 1);
      }
      return false, cursor', b', charges';
    }
    LiveStaysValid(events, cursor');
    var c := Attribute(index, s.pc);
    ok, b' := RecordSample(events, samples, limits, i, cursor, b, charges, cursor', c);
    charges' := charges + [c];
  }

  /** Books a sample whose events have been applied. */
  method RecordSample(ghost events: seq<Event>, samples: seq<Sample>, limits: Limits, i: nat, ghost cursor: nat, b: Book,
                      ghost charges: seq<Charge>, ghost cursor': nat, c: Charge)
    returns (ok: bool, b': Book)
    requires InTime(events) && SamplesInTime(samples) && i < |samples| <= limits.samples
    requires Joined(events, samples, limits, i, cursor, b, charges) && b.report.weight + samples[i].period <= MAX_UINT64
    requires cursor' <= |events| && Cut(events, samples[i].timestamp, cursor') && Disjoint(LiveAfter(events, cursor'))
    requires Charged(LiveAfter(events, cursor'), samples[i].pc, c) && (c.Hit? ==> ImageValid(c.image))
    ensures !ok ==> !Resolvable(events, samples, limits)
    ensures ok ==> Joined(events, samples, limits, i + 1, cursor', b', charges + [c]) && b'.report.unit == b.report.unit
  {
    hide Joined, Disjoint, BookOk, WithinLimits, Fits, Attributed, Charged, ChargedAt, LiveAfter, TotalWeight, ImageValid;
    var s := samples[i];
    JoinedBefore(events, samples, limits, i, cursor, b, charges);
    FitsNext(charges, samples[..i], c, s);
    JoinedBook(events, samples, limits, i, cursor, b, charges);
    ok, b' := Record(b, c, s, limits, charges, samples[..i]);
    if !ok {
      if Resolvable(events, samples, limits) {
        ChargedAtCut(events, s, cursor', c);
        AttributedNext(events, samples, i, charges, c);
        LimitsForced(events, samples, limits, charges + [c]);
      }
      return;
    }
    JoinedNext(events, samples, limits, i, cursor, b, charges, c, cursor', b');
  }

  lemma JoinedBook(events: seq<Event>, samples: seq<Sample>, limits: Limits, i: int, cursor: int, b: Book, charges: seq<Charge>)
    requires Joined(events, samples, limits, i, cursor, b, charges)
    ensures BookOk(b, charges, samples[..i]) && WithinLimits(charges, limits) && Attributed(events, samples[..i], charges)
  {
  }

  lemma JoinedStart(events: seq<Event>, samples: seq<Sample>, limits: Limits, b: Book)
    requires b.report.Sum() == Tally(0, 0) && b.report.UnknownSum() == Tally(0, 0) && b.report.rows == []
    requires b.index == map[] && b.hot == map[] && b.hotCount == 0 && b.inlineCount == 0
    ensures Joined(events, samples, limits, 0, 0, b, [])
  {
    assert samples[..0] == [];
    assert RowKeysOf([]) == {} && BucketsOf([]) == {};
  }

  lemma JoinedEnd(events: seq<Event>, samples: seq<Sample>, limits: Limits, cursor: int, b: Book, charges: seq<Charge>)
    requires Joined(events, samples, limits, |samples|, cursor, b, charges) && EventsOk(events, cursor)
    requires |samples| == 0 ==> events == []
    requires |samples| > 0 ==> forall e :: e in events ==> e.timestamp <= samples[|samples| - 1].timestamp
    ensures BookOk(b, charges, samples) && Attributed(events, samples, charges)
    ensures Resolvable(events, samples, limits)
  {
    assert samples[..|samples|] == samples;
    FitsWeight(b, charges, samples);
    hide BookOk, WithinLimits, Attributed, EventOk, DisjointAt, TotalWeight;
    if |samples| > 0 {
      assert forall i :: 0 <= i < |events| ==> events[i] in events;
      CutUnique(events, samples[|samples| - 1].timestamp, cursor, |events|);
    }
  }

  lemma FitsWeight(b: Book, charges: seq<Charge>, samples: seq<Sample>)
    requires BookOk(b, charges, samples)
    ensures TotalWeight(samples) <= MAX_UINT64
  {
    EverythingWeighs(charges, samples);
  }

  /** The join of events and samples already in time order. */
  method Join(events: seq<Event>, samples: seq<Sample>, unit: string, limits: Limits) returns (r: Option<Report>, ghost charges: seq<Charge>)
    requires InTime(events) && SamplesInTime(samples) && |samples| <= limits.samples
    requires |samples| == 0 ==> events == []
    requires |samples| > 0 ==> forall e :: e in events ==> e.timestamp <= samples[|samples| - 1].timestamp
    ensures r.Some? <==> Resolvable(events, samples, limits)
    ensures r.Some? ==> Attributed(events, samples, charges) && ReportOk(r.value, charges, samples) && r.value.unit == unit
  {
    hide Joined, Resolvable, SlotsDisjoint, ReportOk, Attributed, BookOk, Index.Valid, EventOk;
    var index := new Index(events);
    NothingLive(index);
    var b := Book(Report(unit, 0, 0, 0, 0, []), map[], map[], 0, 0);
    JoinedStart(events, samples, limits, b);
    charges := [];
    var cursor: nat := 0;
    for i := 0 to |samples|
      invariant Joined(events, samples, limits, i, cursor, b, charges) && b.report.unit == unit
      invariant Synced(index, events, cursor) && SlotsDisjoint(index.images[..])
      invariant fresh(index) && fresh(index.images) && fresh(index.tree)
    {
      var ok, next, book;
      ghost var more;
      ok, next, book, more := JoinSample(index, events, samples, limits, i, cursor, b, charges);
      if !ok { return None, charges; }
      cursor, b, charges := next, book, more;
    }
    JoinedEnd(events, samples, limits, cursor, b, charges);
    var report := Finish(b, charges, samples);
    r := Some(report);
  }

  lemma NothingLive(index: Index)
    requires index.Valid() && index.live == map[]
    ensures SlotsDisjoint(index.images[..])
  {
    assert forall p :: 0 <= p < index.images.Length ==> index.images[..][p].None?;
  }

  /** The lifecycle events that matter to the samples, in time order. */
  function Journal(events: seq<Event>, samples: seq<Sample>): seq<Event> {
    var ordered := Sort(SampleLess, samples);
    if |ordered| == 0 then [] else UpTo(Sort(EventLess, events), ordered[|ordered| - 1].timestamp)
  }

  /** The journal is ordered by time and sequence, the samples by time. */
  lemma JournalInTime(events: seq<Event>, samples: seq<Sample>)
    ensures InTime(Journal(events, samples)) && InSequence(Journal(events, samples))
    ensures SamplesInTime(Sort(SampleLess, samples))
  {
    hide Sort, StrictWeak, Sorted;
    LessWeak();
    SortSorted(EventLess, events);
    SortSorted(SampleLess, samples);
    EventsSorted(Sort(EventLess, events));
    SamplesSorted(Sort(SampleLess, samples));
  }

  lemma LessWeak()
    ensures StrictWeak(EventLess) && StrictWeak(SampleLess)
  {
  }

  lemma EventsSorted(events: seq<Event>)
    requires Sorted(EventLess, events)
    ensures InTime(events) && InSequence(events)
  {
    assert forall i, j :: 0 <= i < j < |events| ==> !EventLess(events[j], events[i]);
  }

  lemma SamplesSorted(samples: seq<Sample>)
    requires Sorted(SampleLess, samples)
    ensures SamplesInTime(samples)
  {
    assert forall i, j :: 0 <= i < j < |samples| ==> !SampleLess(samples[j], samples[i]);
  }

  function Times(events: seq<Event>): seq<int> {
    seq(|events|, i requires 0 <= i < |events| => events[i].timestamp)
  }

  lemma {:induction false} UpToIsPrefix(events: seq<Event>, t: int, n: int)
    requires Cut(events, t, n)
    ensures UpTo(events, t) == events[..n]
    decreases |events|
  {
    if n > 0 {
      assert forall i :: 0 <= i < |events| - 1 ==> events[1..][i] == events[i + 1];
      UpToIsPrefix(events[1..], t, n - 1);
      assert events[..n] == [events[0]] + events[1..][..n - 1];
    }
  }

  /**
   Resolves samples against the journal. `admitted` is the outcome of the metadata limits on the
   events. Success is characterised exactly, and each sample is charged once, to what was live
   at its timestamp.
   */
  method ResolveWithLimits(events: seq<Event>, samples: seq<Sample>, unit: string, limits: Limits, admitted: bool)
    returns (r: Option<Report>, ghost charges: seq<Charge>)
    ensures r.Some? <==>
      admitted && |samples| <= limits.samples && Resolvable(Journal(events, samples), Sort(SampleLess, samples), limits)
    ensures r.Some? ==>
      && Attributed(Journal(events, samples), Sort(SampleLess, samples), charges)
      && ReportOk(r.value, charges, Sort(SampleLess, samples)) && r.value.unit == unit
  {
    hide Sort, Resolvable, Attributed, ReportOk, InTime, SamplesInTime;
    charges := [];
    if !admitted || |samples| > limits.samples { return None, []; }
    JournalInTime(events, samples);
    var ordered := Sort(SampleLess, samples);
    if |samples| == 0 {
      r, charges := Join([], ordered, unit, limits);
      return;
    }
    var sorted := Sort(EventLess, events);
    var last := ordered[|ordered| - 1].timestamp;
    SortedTimes(events);
    var n := FirstAbove(Times(sorted), last);
    CutAt(sorted, last, n);
    UpToIsPrefix(sorted, last, n);
    r, charges := Join(sorted[..n], ordered, unit, limits);
  }

  lemma CutAt(events: seq<Event>, t: int, n: int)
    requires 0 <= n <= |events|
    requires forall i :: 0 <= i < n ==> Times(events)[i] <= t
    requires forall i :: n <= i < |events| ==> Times(events)[i] > t
    ensures Cut(events, t, n)
  {
    forall i | 0 <= i < |events| ensures events[i].timestamp == Times(events)[i] {
    }
  }

  lemma SortedTimes(events: seq<Event>)
    ensures Ascending(Times(Sort(EventLess, events)))
  {
    hide Sort, StrictWeak;
    LessWeak();
    SortSorted(EventLess, events);
    EventsSorted(Sort(EventLess, events));
  }
}
