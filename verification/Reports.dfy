/**
 Finished reports: rows with their hot program counters in order, the conservation laws of
 samples and weights, and the consistency checks of the pprof exporter (profile/pprof.go).
 */
module Reports {
  import opened Options
  import opened FiniteSets
  import opened Sorting
  import opened Words
  import opened UnwindRules
  import opened CodeImages
  import opened LiveSets
  import opened RowKeys
  import opened Charges
  import opened Ledgers

  datatype Report = Report(unit: string, samples: UInt64, weight: UInt64, unknownSamples: UInt64, unknownWeight: UInt64, rows: seq<Row>) {
    function Sum(): Tally {
      Tally(samples, weight)
    }

    function UnknownSum(): Tally {
      Tally(unknownSamples, unknownWeight)
    }
  }

  /* ---------- What a finished report says ---------- */

  ghost predicate PcsAscend(pcs: seq<HotPc>) {
    forall i, j :: 0 <= i < j < |pcs| ==> pcs[i].offset < pcs[j].offset
  }

  ghost predicate PcsOk(pcs: seq<HotPc>, key: string, charges: seq<Charge>, samples: seq<Sample>)
    requires |charges| == |samples|
  {
    && PcsAscend(pcs)
    && (forall i :: 0 <= i < |pcs| ==> PcOk(pcs[i], key, pcs[i].offset, charges, samples) && PcFrom(pcs[i], key, charges))
    && (forall o :: (key, o) in BucketsOf(charges) ==> exists i :: 0 <= i < |pcs| && pcs[i].offset == o)
  }

  /** A row is named by its first charge, counts exactly the samples of its key, and lists each of their offsets once. */
  ghost predicate RowReported(r: Row, charges: seq<Charge>, samples: seq<Sample>)
    requires |charges| == |samples|
  {
    && r.Sum() == TallyOf(charges, samples, InRow(RowKey(r))) && RowFrom(r, charges)
    && PcsOk(r.pcs, RowKey(r), charges, samples)
  }

  ghost predicate KeysDistinct(rows: seq<Row>) {
    forall i, j :: 0 <= i < j < |rows| ==> RowKey(rows[i]) != RowKey(rows[j])
  }

  predicate RowLess(a: Row, b: Row) {
    if a.weight != b.weight then a.weight > b.weight else a.identity.function_ < b.identity.function_
  }

  /** Heaviest rows first, equal ones by function. */
  ghost predicate HeaviestFirst(rows: seq<Row>) {
    forall i, j :: 0 <= i < j < |rows| ==>
      && rows[i].weight >= rows[j].weight
      && (rows[i].weight == rows[j].weight ==> rows[i].identity.function_ <= rows[j].identity.function_)
  }

  lemma SortedByWeight(rows: seq<Row>)
    requires Sorted(RowLess, rows)
    ensures HeaviestFirst(rows)
  {
    assert forall i, j :: 0 <= i < j < |rows| ==> !RowLess(rows[j], rows[i]);
  }

  ghost predicate RowsReported(rows: seq<Row>, charges: seq<Charge>, samples: seq<Sample>)
    requires |charges| == |samples|
  {
    && KeysDistinct(rows)
    && (forall r :: r in rows ==> RowReported(r, charges, samples))
    && (forall k :: k in RowKeysOf(charges) ==> exists r :: r in rows && RowKey(r) == k)
  }

  ghost predicate ReportOk(report: Report, charges: seq<Charge>, samples: seq<Sample>) {
    && Fits(charges, samples)
    && report.Sum() == TallyOf(charges, samples, Everything)
    && report.UnknownSum() == TallyOf(charges, samples, Unknown)
    && RowsReported(report.rows, charges, samples)
    && HeaviestFirst(report.rows)
  }

  /* ---------- Rows in terms of charges alone ---------- */

  /** The row named by one of its charges, counting all charges that belong together with it. */
  ghost predicate CountsWith(r: Row, charges: seq<Charge>, samples: seq<Sample>, c: Charge)
    requires |charges| == |samples|
  {
    r.Sum() == TallyWith(charges, samples, c) && exists d :: d in charges && Together(c, d) && RowNamed(r, d)
  }

  /**
   In a finished report of plain charges, every hit is counted in exactly one row, and two hits in the
   same row exactly when they belong together: one function's body, or one region without a function.
   */
  lemma RowsOfCharges(report: Report, charges: seq<Charge>, samples: seq<Sample>, c: Charge) returns (r: Row)
    requires ReportOk(report, charges, samples) && (forall d :: d in charges ==> Plain(d)) && c in charges && c.Hit?
    ensures r in report.rows && CountsWith(r, charges, samples, c)
    ensures forall r' :: r' in report.rows && CountedIn(r', c) <==> r' == r
    ensures forall d :: d in charges && d.Hit? ==> (CountedIn(r, d) <==> Together(c, d))
  {
    hide KeyOf, RowKey, Together, RowNamed, TallyOf, PcsOk, HeaviestFirst, RowKeysOf, TallyWith;
    assert KeyOf(c) in RowKeysOf(charges);
    r :| r in report.rows && RowKey(r) == KeyOf(c);
    assert RowReported(r, charges, samples);
    TallyWithIsRow(charges, samples, c);
    var i :| FirstOf(charges, InRow(RowKey(r)), i) && RowNamed(r, charges[i]);
    assert charges[i] in charges;
    TogetherHits(c, charges[i]);
    forall d | d in charges && d.Hit? ensures CountedIn(r, d) <==> Together(c, d) { TogetherIsKey(c, d); }
    OneRow(report.rows, r);
  }

  /** The row whose key the charge has. */
  ghost predicate CountedIn(r: Row, c: Charge) {
    c.Hit? && RowKey(r) == KeyOf(c)
  }

  lemma OneRow(rows: seq<Row>, r: Row)
    requires KeysDistinct(rows) && r in rows
    ensures forall r' :: r' in rows && RowKey(r') == RowKey(r) ==> r' == r
  {
    hide RowKey;
  }

  /* ---------- Conservation ---------- */

  function SumPcs(pcs: seq<HotPc>): Tally {
    if |pcs| == 0 then Tally(0, 0) else SumPcs(pcs[..|pcs| - 1]).Plus(pcs[|pcs| - 1].Sum())
  }

  function SumRows(rows: seq<Row>): Tally {
    if |rows| == 0 then Tally(0, 0) else SumRows(rows[..|rows| - 1]).Plus(rows[|rows| - 1].Sum())
  }

  function PcGroups(key: string, pcs: seq<HotPc>): seq<Group> {
    seq(|pcs|, i requires 0 <= i < |pcs| => AtPc(key, pcs[i].offset))
  }

  function RowGroups(rows: seq<Row>): seq<Group> {
    seq(|rows|, i requires 0 <= i < |rows| => InRow(RowKey(rows[i])))
  }

  lemma {:induction false} SumPcsIsTally(pcs: seq<HotPc>, key: string, charges: seq<Charge>, samples: seq<Sample>)
    requires |charges| == |samples|
    requires forall i :: 0 <= i < |pcs| ==> PcOk(pcs[i], key, pcs[i].offset, charges, samples)
    ensures SumPcs(pcs) == TallySum(charges, samples, PcGroups(key, pcs))
    decreases |pcs|
  {
    hide TallyOf, Tally.Plus;
    if |pcs| > 0 {
      var n := |pcs| - 1;
      SumPcsIsTally(pcs[..n], key, charges, samples);
      assert PcGroups(key, pcs)[..n] == PcGroups(key, pcs[..n]);
      assert PcOk(pcs[n], key, pcs[n].offset, charges, samples);
    }
  }

  lemma {:induction false} SumRowsIsTally(rows: seq<Row>, charges: seq<Charge>, samples: seq<Sample>)
    requires |charges| == |samples|
    requires forall i :: 0 <= i < |rows| ==> RowReported(rows[i], charges, samples)
    ensures SumRows(rows) == TallySum(charges, samples, RowGroups(rows))
    decreases |rows|
  {
    hide TallyOf, Tally.Plus, PcsOk;
    if |rows| > 0 {
      var n := |rows| - 1;
      SumRowsIsTally(rows[..n], charges, samples);
      assert RowGroups(rows)[..n] == RowGroups(rows[..n]);
      assert RowReported(rows[n], charges, samples);
    }
  }

  /** A charge is in at most one of a row's offsets, and in one if it is in the row and listed. */
  lemma {:induction false} PcHits(key: string, pcs: seq<HotPc>, c: Charge)
    requires PcsAscend(pcs)
    ensures Hits(PcGroups(key, pcs), c)
            == if c.Hit? && KeyOf(c) == key && exists i :: 0 <= i < |pcs| && pcs[i].offset == c.offset then 1 else 0
    decreases |pcs|
  {
    hide KeyOf;
    if |pcs| > 0 {
      var n := |pcs| - 1;
      PcHits(key, pcs[..n], c);
      assert PcGroups(key, pcs)[..n] == PcGroups(key, pcs[..n]);
      assert forall i :: 0 <= i < n ==> pcs[..n][i] == pcs[i];
    }
  }

  lemma {:induction false} RowHits(rows: seq<Row>, c: Charge)
    requires KeysDistinct(rows)
    ensures Hits(RowGroups(rows), c)
            == if c.Hit? && exists i :: 0 <= i < |rows| && RowKey(rows[i]) == KeyOf(c) then 1 else 0
    decreases |rows|
  {
    hide KeyOf, RowKey;
    if |rows| > 0 {
      var n := |rows| - 1;
      RowHits(rows[..n], c);
      assert RowGroups(rows)[..n] == RowGroups(rows[..n]);
      assert forall i :: 0 <= i < n ==> rows[..n][i] == rows[i];
    }
  }

  /** The hot program counters of a row add up to the row. */
  lemma RowConserved(r: Row, charges: seq<Charge>, samples: seq<Sample>)
    requires |charges| == |samples| && RowReported(r, charges, samples)
    ensures SumPcs(r.pcs) == r.Sum()
  {
    hide TallyOf, KeyOf, RowKey, Hits, TallySum, SumPcs, BucketsOf, PcOk;
    var key := RowKey(r);
    var groups := PcGroups(key, r.pcs);
    forall c | c in charges ensures Hits(groups, c) == if Selects(InRow(key), c) then 1 else 0 {
      PcHits(key, r.pcs, c);
      if c.Hit? && KeyOf(c) == key { assert (key, c.offset) in BucketsOf(charges); }
    }
    PartitionAdds(charges, samples, groups, InRow(key));
    SumPcsIsTally(r.pcs, key, charges, samples);
  }

  /** Unknown samples and rows add up to the report. */
  lemma ReportConserved(report: Report, charges: seq<Charge>, samples: seq<Sample>)
    requires ReportOk(report, charges, samples)
    ensures report.UnknownSum().Plus(SumRows(report.rows)) == report.Sum()
    ensures report.samples == |samples|
  {
    hide TallyOf, KeyOf, RowKey, Hits, SumRows, RowKeysOf, RowReported, Tally.Plus, HeaviestFirst;
    var groups := [Unknown] + RowGroups(report.rows);
    forall c | c in charges ensures Hits(groups, c) == 1 {
      RowHits(report.rows, c);
      HitsFront(Unknown, RowGroups(report.rows), c);
      if c.Hit? {
        assert KeyOf(c) in RowKeysOf(charges);
        var r :| r in report.rows && RowKey(r) == KeyOf(c);
      }
    }
    PartitionAdds(charges, samples, groups, Everything);
    TallySumFront(charges, samples, Unknown, RowGroups(report.rows));
    SumRowsIsTally(report.rows, charges, samples);
    EverythingCounts(charges, samples);
  }

  lemma {:induction false} HitsFront(g: Group, groups: seq<Group>, c: Charge)
    ensures Hits([g] + groups, c) == Hits(groups, c) + if Selects(g, c) then 1 else 0
    decreases |groups|
  {
    hide Selects;
    if |groups| > 0 {
      var n := |groups| - 1;
      HitsFront(g, groups[..n], c);
      assert ([g] + groups)[..n + 1] == [g] + groups[..n];
    } else {
      assert ([g] + groups)[..0] == [];
    }
  }

  lemma {:induction false} TallySumFront(charges: seq<Charge>, samples: seq<Sample>, g: Group, groups: seq<Group>)
    requires |charges| == |samples|
    ensures TallySum(charges, samples, [g] + groups) == TallyOf(charges, samples, g).Plus(TallySum(charges, samples, groups))
    decreases |groups|
  {
    hide TallyOf;
    if |groups| > 0 {
      var n := |groups| - 1;
      TallySumFront(charges, samples, g, groups[..n]);
      assert ([g] + groups)[..n + 1] == [g] + groups[..n];
      PlusAssociates(TallyOf(charges, samples, g), TallySum(charges, samples, groups[..n]), TallyOf(charges, samples, groups[n]));
    } else {
      assert ([g] + groups)[..0] == [];
    }
  }

  lemma PlusAssociates(a: Tally, b: Tally, c: Tally)
    ensures a.Plus(b).Plus(c) == a.Plus(b.Plus(c))
  {
  }

  lemma {:induction false} EverythingCounts(charges: seq<Charge>, samples: seq<Sample>)
    requires |charges| == |samples|
    ensures TallyOf(charges, samples, Everything).samples == |samples|
    decreases |charges|
  {
    if |charges| > 0 { EverythingCounts(charges[..|charges| - 1], samples[..|samples| - 1]); }
  }

  /* ---------- The exporter's consistency checks ---------- */

  const MAX_INT64 := 0x7FFF_FFFF_FFFF_FFFF

  predicate PcExportable(pc: HotPc) {
    && (pc.source.None? ==> pc.callers == [])
    && (pc.site.Some? ==> pc.site.value.kind != "" && pc.site.value.span.Contains(pc.offset))
  }

  ghost predicate RowExportable(r: Row) {
    SumPcs(r.pcs) == r.Sum() && forall i :: 0 <= i < |r.pcs| ==> PcExportable(r.pcs[i])
  }

  predicate Small(t: Tally) {
    t.samples <= MAX_INT64 && t.weight <= MAX_INT64
  }

  /** Everything adds up, fits signed values, and every program counter is explained consistently. */
  ghost predicate Exportable(r: Report, duration: int) {
    && r.unit == "nanoseconds" && duration >= 0
    && (r.unknownSamples == 0 ==> r.unknownWeight == 0)
    && (forall i :: 0 <= i < |r.rows| ==> RowExportable(r.rows[i]))
    && r.UnknownSum().Plus(SumRows(r.rows)) == r.Sum()
    && Small(r.Sum())
  }

  /** Checks one row; `total` runs over everything before it and keeps within signed range. */
  method CheckRow(r: Row, before: Tally) returns (ok: bool, total: Tally)
    requires Small(before)
    ensures ok <==> RowExportable(r) && Small(before.Plus(r.Sum()))
    ensures ok ==> total == before.Plus(r.Sum())
  {
    total := before;
    var row := Tally(0, 0);
    for i := 0 to |r.pcs|
      invariant row == SumPcs(r.pcs[..i])
      invariant total == before.Plus(row) && Small(total)
      invariant forall j :: 0 <= j < i ==> PcExportable(r.pcs[j])
    {
      var pc := r.pcs[i];
      assert r.pcs[..i + 1][..i] == r.pcs[..i];
      assert SumPcs(r.pcs[..i + 1]) == row.Plus(pc.Sum());
      if pc.samples > MAX_INT64 || pc.weight > MAX_INT64
         || pc.samples > MAX_INT64 - total.samples || pc.weight > MAX_INT64 - total.weight {
        SumPcsGrows(r.pcs, i + 1);
        return false, total;
      }
      total, row := total.Plus(pc.Sum()), row.Plus(pc.Sum());
      if pc.source.None? && |pc.callers| != 0 { return false, total; }
      if pc.site.Some? && (pc.site.value.kind == "" || pc.offset < pc.site.value.span.offset
                           || pc.offset - pc.site.value.span.offset >= pc.site.value.span.size) {
        assert !PcExportable(pc);
        return false, total;
      }
    }
    assert r.pcs[..|r.pcs|] == r.pcs;
    ok := row == r.Sum();
  }

  lemma {:induction false} SumPcsGrows(pcs: seq<HotPc>, n: nat)
    requires n <= |pcs|
    ensures SumPcs(pcs[..n]).samples <= SumPcs(pcs).samples && SumPcs(pcs[..n]).weight <= SumPcs(pcs).weight
    decreases |pcs|
  {
    if n == |pcs| {
      assert pcs[..n] == pcs;
    } else {
      SumPcsGrows(pcs[..|pcs| - 1], n);
      assert pcs[..|pcs| - 1][..n] == pcs[..n];
    }
  }

  lemma {:induction false} SumRowsGrows(rows: seq<Row>, n: nat)
    requires n <= |rows|
    ensures SumRows(rows[..n]).samples <= SumRows(rows).samples && SumRows(rows[..n]).weight <= SumRows(rows).weight
    decreases |rows|
  {
    if n == |rows| {
      assert rows[..n] == rows;
    } else {
      SumRowsGrows(rows[..|rows| - 1], n);
      assert rows[..|rows| - 1][..n] == rows[..n];
    }
  }

  method CheckRows(rows: seq<Row>, unknown: Tally) returns (ok: bool, total: Tally)
    requires Small(unknown)
    ensures ok <==> (forall i :: 0 <= i < |rows| ==> RowExportable(rows[i])) && Small(unknown.Plus(SumRows(rows)))
    ensures ok ==> total == unknown.Plus(SumRows(rows))
  {
    hide RowExportable, Tally.Plus, SumRows;
    total := unknown;
    NoRows(unknown);
    for i := 0 to |rows|
      invariant total == unknown.Plus(SumRows(rows[..i])) && Small(total)
      invariant forall j :: 0 <= j < i ==> RowExportable(rows[j])
    {
      SumRowsNext(rows, i);
      PlusAssociates(unknown, SumRows(rows[..i]), rows[i].Sum());
      var rowOk, sum := CheckRow(rows[i], total);
      if !rowOk {
        SumRowsGrows(rows, i + 1);
        StaysLarge(unknown, SumRows(rows[..i + 1]), SumRows(rows));
        return false, total;
      }
      total := sum;
    }
    assert rows[..|rows|] == rows;
    ok := true;
  }

  lemma NoRows(t: Tally)
    ensures t.Plus(SumRows([])) == t
  {
  }

  lemma SumRowsNext(rows: seq<Row>, i: int)
    requires 0 <= i < |rows|
    ensures SumRows(rows[..i + 1]) == SumRows(rows[..i]).Plus(rows[i].Sum())
  {
    assert rows[..i + 1][..i] == rows[..i];
  }

  lemma StaysLarge(t: Tally, a: Tally, b: Tally)
    requires a.samples <= b.samples && a.weight <= b.weight
    ensures Small(t.Plus(b)) ==> Small(t.Plus(a))
  {
  }

  method CheckPprof(r: Report, duration: int) returns (ok: bool)
    ensures ok <==> Exportable(r, duration)
  {
    hide RowExportable, SumRows;
    if r.unit != "nanoseconds" || duration < 0 { return false; }
    if r.unknownSamples > MAX_INT64 || r.unknownWeight > MAX_INT64 { return false; }
    if r.unknownSamples == 0 && r.unknownWeight != 0 { return false; }
    var rowsOk, total := CheckRows(r.rows, r.UnknownSum());
    ok := rowsOk && total == r.Sum();
  }

  lemma {:induction false} NoSamplesNoWeight(charges: seq<Charge>, samples: seq<Sample>, g: Group)
    requires |charges| == |samples| && TallyOf(charges, samples, g).samples == 0
    ensures TallyOf(charges, samples, g).weight == 0
    decreases |charges|
  {
    if |charges| > 0 { NoSamplesNoWeight(charges[..|charges| - 1], samples[..|samples| - 1], g); }
  }

  /** Every nanosecond report the resolver makes passes, as long as its totals fit signed values. */
  lemma ResolvedIsExportable(r: Report, duration: int, charges: seq<Charge>, samples: seq<Sample>)
    requires ReportOk(r, charges, samples) && r.unit == "nanoseconds" && duration >= 0
    ensures Exportable(r, duration) <==> Small(r.Sum())
  {
    ReportConserved(r, charges, samples);
    if r.unknownSamples == 0 { NoSamplesNoWeight(charges, samples, Unknown); }
    hide TallyOf, SumRows, SumPcs, Fits;
    forall i | 0 <= i < |r.rows| ensures RowExportable(r.rows[i]) {
      assert r.rows[i] in r.rows;
      RowConserved(r.rows[i], charges, samples);
      forall j | 0 <= j < |r.rows[i].pcs| ensures PcExportable(r.rows[i].pcs[j]) {
        assert PcOk(r.rows[i].pcs[j], RowKey(r.rows[i]), r.rows[i].pcs[j].offset, charges, samples);
      }
    }
  }
}
