/**
 The resolver's aggregation tables (profile/samples.go): one row per key, one hot program
 counter per key and offset, each kept equal to the tally of the charges it stands for.
 */
module Ledgers {
  import opened Options
  import opened Words
  import opened UnwindRules
  import opened CodeImages
  import opened LiveSets
  import opened RowKeys
  import opened Charges

  /** Non-negative values of Go's int. */
  type Size = x: int | 0 <= x < 0x8000_0000_0000_0000

  datatype Limits = Limits(samples: Size, metadata: Size, rows: Size, hotPCs: Size)

  datatype HotPc = HotPc(offset: UInt64, samples: UInt64, weight: UInt64, site: Option<CodeSite>,
                         source: Option<SourceRange>, callers: seq<InlineFrame>) {
    function Sum(): Tally {
      Tally(samples, weight)
    }
  }

  datatype Row = Row(identity: Identity, name: string, samples: UInt64, weight: UInt64, pcs: seq<HotPc>) {
    function Sum(): Tally {
      Tally(samples, weight)
    }
  }

  /** Everything charged so far fits the counters. */
  ghost predicate Fits(charges: seq<Charge>, samples: seq<Sample>) {
    && |charges| == |samples| < 0x8000_0000_0000_0000
    && TallyOf(charges, samples, Everything).weight <= MAX_UINT64
  }

  lemma FitsEach(charges: seq<Charge>, samples: seq<Sample>, g: Group)
    requires Fits(charges, samples)
    ensures TallyOf(charges, samples, g).samples < 0x8000_0000_0000_0000
    ensures TallyOf(charges, samples, g).weight <= MAX_UINT64
  {
    TallyBounded(charges, samples, g);
  }

  /** A counter can take one more of its samples without wrapping. */
  lemma Room(charges: seq<Charge>, samples: seq<Sample>, c: Charge, s: Sample, g: Group)
    requires |charges| == |samples| && Fits(charges + [c], samples + [s]) && Selects(g, c)
    ensures TallyOf(charges, samples, g).samples + 1 < 0x8000_0000_0000_0000
    ensures TallyOf(charges, samples, g).weight + s.period <= MAX_UINT64
  {
    TallyStep(charges, samples, c, s, g);
    FitsEach(charges + [c], samples + [s], g);
  }

  lemma {:induction false} TallyNone(charges: seq<Charge>, samples: seq<Sample>, g: Group)
    requires |charges| == |samples| && forall c :: c in charges ==> !Selects(g, c)
    ensures TallyOf(charges, samples, g) == Tally(0, 0)
    decreases |charges|
  {
    if |charges| > 0 {
      var n := |charges| - 1;
      assert charges[n] in charges;
      TallyNone(charges[..n], samples[..n], g);
    }
  }

  /* ---------- Rows ---------- */

  function RowKey(r: Row): string {
    Key(r.identity)
  }

  ghost predicate RowOk(r: Row, charges: seq<Charge>, samples: seq<Sample>)
    requires |charges| == |samples|
  {
    r.pcs == [] && r.Sum() == TallyOf(charges, samples, InRow(RowKey(r)))
  }

  /** One row per key, found through the index, holding the tally of its charges. */
  ghost predicate RowsOk(rows: seq<Row>, index: map<string, nat>, keys: set<string>, charges: seq<Charge>, samples: seq<Sample>)
    requires |charges| == |samples|
  {
    && index.Keys == keys
    && (forall k :: k in index ==> index[k] < |rows| && RowKey(rows[index[k]]) == k)
    && (forall i :: 0 <= i < |rows| ==> RowKey(rows[i]) in index && index[RowKey(rows[i])] == i)
    && (forall i :: 0 <= i < |rows| ==> RowOk(rows[i], charges, samples))
  }

  /** The row is described by what a charge hit: the function's body, or a region of its own. */
  ghost predicate RowNamed(r: Row, c: Charge) {
    && c.Hit? && r.name == c.region.name
    && r.identity.moduleID == c.image.moduleID && r.identity.artifactID == c.image.artifactID
    && r.identity.function_ == c.region.function_
    && (c.region.function_ >= 0 ==> r.identity.kind == "function" && r.identity.regionOffset == 0)
    && (c.region.function_ < 0 ==> r.identity.kind == c.region.kind && r.identity.regionOffset == c.region.span.offset)
  }

  /** The first charge of the row describes it. */
  ghost predicate RowFrom(r: Row, charges: seq<Charge>) {
    exists i :: FirstOf(charges, InRow(RowKey(r)), i) && RowNamed(r, charges[i])
  }

  ghost predicate RowsFrom(rows: seq<Row>, charges: seq<Charge>) {
    forall i :: 0 <= i < |rows| ==> RowFrom(rows[i], charges)
  }

  lemma RowFromStays(r: Row, r': Row, charges: seq<Charge>, c: Charge)
    requires RowFrom(r, charges) && r'.identity == r.identity && r'.name == r.name
    ensures RowFrom(r', charges + [c])
  {
    hide Key, Selects;
    var i :| FirstOf(charges, InRow(RowKey(r)), i) && RowNamed(r, charges[i]);
    FirstStays(charges, c, InRow(RowKey(r)), i);
  }

  lemma RowFromNew(r: Row, charges: seq<Charge>, c: Charge)
    requires c.Hit? && RowNamed(r, c) && RowKey(r) == KeyOf(c) && KeyOf(c) !in RowKeysOf(charges)
    ensures RowFrom(r, charges + [c])
  {
    hide Key, KeyOf, RowKeysOf;
    NoCharge(charges, KeyOf(c));
    FirstCome(charges, c, InRow(KeyOf(c)));
    assert (charges + [c])[|charges|] == c;
  }

  lemma RowsFromBump(rows: seq<Row>, i: nat, row: Row, charges: seq<Charge>, c: Charge)
    requires i < |rows| && row.identity == rows[i].identity && row.name == rows[i].name && RowsPending(rows, i, charges, c)
    ensures RowsFrom(rows[i := row], charges + [c])
  {
    hide RowFrom;
    var rows' := rows[i := row];
    forall j | 0 <= j < |rows| ensures RowFrom(rows'[j], charges + [c]) {
      if RowFrom(rows[j], charges) {
        RowFromStays(rows[j], rows'[j], charges, c);
      } else {
        RowFromSame(rows[j], rows'[j], charges + [c]);
      }
    }
  }

  lemma RowsFromMissed(rows: seq<Row>, charges: seq<Charge>, c: Charge)
    requires RowsFrom(rows, charges)
    ensures RowsFrom(rows, charges + [c])
  {
    hide RowFrom;
    forall j | 0 <= j < |rows| ensures RowFrom(rows[j], charges + [c]) { RowFromStays(rows[j], rows[j], charges, c); }
  }

  lemma RowsNew(rows: seq<Row>, index: map<string, nat>, keys: set<string>, charges: seq<Charge>, samples: seq<Sample>, row: Row)
    requires |charges| == |samples| && RowsOk(rows, index, keys, charges, samples)
    requires RowKey(row) !in keys && row.pcs == [] && row.Sum() == Tally(0, 0)
    requires RowKeysOf(charges) <= keys
    ensures RowsOk(rows + [row], index[RowKey(row) := |rows|], keys + {RowKey(row)}, charges, samples)
  {
    hide Key, TallyOf, RowKeysOf;
    NoCharge(charges, RowKey(row));
    TallyNone(charges, samples, InRow(RowKey(row)));
    assert RowOk(row, charges, samples);
    hide RowOk;
  }

  lemma NoCharge(charges: seq<Charge>, key: string)
    requires key !in RowKeysOf(charges)
    ensures forall c :: c in charges ==> !Selects(InRow(key), c)
  {
  }

  lemma RowStep(r: Row, charges: seq<Charge>, samples: seq<Sample>, c: Charge, s: Sample, r': Row)
    requires |charges| == |samples| && RowOk(r, charges, samples)
    requires r'.pcs == [] && r'.identity == r.identity
    requires r'.Sum() == r.Sum().Plus(One(Selects(InRow(RowKey(r)), c), s.period))
    ensures RowOk(r', charges + [c], samples + [s])
  {
    TallyStep(charges, samples, c, s, InRow(RowKey(r)));
  }

  /** Adding one sample to the row of its key, and to no other. */
  lemma RowsBump(rows: seq<Row>, index: map<string, nat>, keys: set<string>, charges: seq<Charge>, samples: seq<Sample>,
                 c: Charge, s: Sample, row: Row)
    requires |charges| == |samples| && RowsOk(rows, index, keys, charges, samples) && c.Hit? && KeyOf(c) in keys
    requires var was := rows[index[KeyOf(c)]];
             row.pcs == was.pcs && row.identity == was.identity && row.Sum() == was.Sum().Plus(One(true, s.period))
    ensures RowsOk(rows[index[KeyOf(c)] := row], index, keys, charges + [c], samples + [s])
  {
    hide Key, KeyOf, TallyOf, RowOk;
    var i := index[KeyOf(c)];
    var rows' := rows[i := row];
    forall j | 0 <= j < |rows| ensures RowOk(rows'[j], charges + [c], samples + [s]) && RowKey(rows'[j]) == RowKey(rows[j]) {
      RowOkEmpty(rows[j], charges, samples);
      SelectsRow(RowKey(rows[j]), c);
      PlusNothing(rows[j].Sum(), s.period);
      RowStep(rows[j], charges, samples, c, s, rows'[j]);
    }
  }

  lemma RowOkEmpty(r: Row, charges: seq<Charge>, samples: seq<Sample>)
    requires |charges| == |samples| && RowOk(r, charges, samples)
    ensures r.pcs == []
  {
  }

  lemma SelectsRow(key: string, c: Charge)
    ensures Selects(InRow(key), c) <==> c.Hit? && KeyOf(c) == key
  {
  }

  lemma PlusNothing(t: Tally, period: nat)
    ensures t.Plus(One(false, period)) == t
  {
  }

  lemma RowsMissed(rows: seq<Row>, index: map<string, nat>, keys: set<string>, charges: seq<Charge>, samples: seq<Sample>, s: Sample)
    requires |charges| == |samples| && RowsOk(rows, index, keys, charges, samples)
    ensures RowsOk(rows, index, keys, charges + [Missed], samples + [s])
  {
    hide Key, TallyOf, RowOk;
    forall j | 0 <= j < |rows| ensures RowOk(rows[j], charges + [Missed], samples + [s]) {
      RowOkEmpty(rows[j], charges, samples);
      SelectsRow(RowKey(rows[j]), Missed);
      PlusNothing(rows[j].Sum(), s.period);
      RowStep(rows[j], charges, samples, Missed, s, rows[j]);
    }
  }

  /** Function bodies share one row per function; other regions have a row each. */
  method Identify(c: Charge) returns (identity: Identity)
    requires c.Hit?
    ensures Key(identity) == KeyOf(c)
    ensures forall r: Row :: r.identity == identity && r.name == c.region.name ==> RowNamed(r, c)
  {
    hide Key, KeyOf;
    var im, region := c.image, c.region;
    var kind, regionKey := region.kind, 0;
    if region.function_ >= 0 { kind := "function"; } else { regionKey := region.span.offset; }
    identity := Identity(im.moduleID, im.artifactID, region.function_, kind, regionKey);
    KeyOfIdentity(c, identity);
  }

  /** All rows are described by their first charges, the one at `i` perhaps by the charge about to be counted. */
  ghost predicate RowsPending(rows: seq<Row>, i: nat, charges: seq<Charge>, c: Charge) {
    forall j :: 0 <= j < |rows| ==> RowFrom(rows[j], charges) || (j == i && RowFrom(rows[j], charges + [c]))
  }

  /** The row of a charge's key, made on first use if the limit allows. */
  method RowFor(rows: seq<Row>, index: map<string, nat>, c: Charge, limit: Size, ghost charges: seq<Charge>, ghost samples: seq<Sample>)
    returns (ok: bool, key: string, rows': seq<Row>, index': map<string, nat>)
    requires c.Hit? && |samples| == |charges| && RowsFrom(rows, charges)
    requires RowsOk(rows, index, RowKeysOf(charges), charges, samples) && |RowKeysOf(charges)| <= limit
    ensures ok <==> |RowKeysOf(charges + [c])| <= limit
    ensures ok ==> RowsOk(rows', index', RowKeysOf(charges + [c]), charges, samples)
    ensures ok ==> key == KeyOf(c) && key in index' && RowsPending(rows', index'[key], charges, c)
  {
    hide TallyOf, Key, KeyOf, RowKeysOf, RowFrom, RowNamed;
    var identity := Identify(c);
    ghost var keys := RowKeysOf(charges);
    RowKeysStep(charges, c);
    ok, key := true, Key(identity);
    rows', index' := rows, index;
    if key !in index {
      assert |keys + {key}| == |keys| + 1;
      if |index| >= limit { return false, key, rows', index'; }
      var row := Row(identity, c.region.name, 0, 0, []);
      RowFromNew(row, charges, c);
      RowsNew(rows, index, keys, charges, samples, row);
      rows', index' := rows + [row], index[key := |rows|];
    } else {
      assert keys + {key} == keys;
    }
  }

  method ChargeRow(rows: seq<Row>, index: map<string, nat>, c: Charge, s: Sample, limit: Size,
                   ghost charges: seq<Charge>, ghost samples: seq<Sample>)
    returns (ok: bool, rows': seq<Row>, index': map<string, nat>)
    requires Fits(charges + [c], samples + [s]) && c.Hit? && |samples| == |charges|
    requires RowsOk(rows, index, RowKeysOf(charges), charges, samples) && |RowKeysOf(charges)| <= limit
    requires RowsFrom(rows, charges)
    ensures ok <==> |RowKeysOf(charges + [c])| <= limit
    ensures ok ==> RowsOk(rows', index', RowKeysOf(charges + [c]), charges + [c], samples + [s])
    ensures ok ==> RowsFrom(rows', charges + [c])
  {
    hide TallyOf, Key, KeyOf, RowKeysOf, RowFrom, RowsPending;
    var key;
    ok, key, rows', index' := RowFor(rows, index, c, limit, charges, samples);
    if !ok { return; }
    var was := rows'[index'[key]];
    Room(charges, samples, c, s, InRow(key));
    assert RowOk(was, charges, samples);
    var row := was.(samples := was.samples + 1, weight := was.weight + s.period);
    RowsBump(rows', index', RowKeysOf(charges + [c]), charges, samples, c, s, row);
    RowsFromBump(rows', index'[key], row, charges, c);
    rows' := rows'[index'[key] := row];
  }

  lemma KeyOfIdentity(c: Charge, identity: Identity)
    requires c.Hit? && identity.moduleID == c.image.moduleID && identity.artifactID == c.image.artifactID
    requires identity.function_ == c.region.function_
    requires c.region.function_ >= 0 ==> identity.kind == "function" && identity.regionOffset == 0
    requires c.region.function_ < 0 ==> identity.kind == c.region.kind && identity.regionOffset == c.region.span.offset
    ensures Key(identity) == KeyOf(c)
  {
  }

  lemma RowFromSame(r: Row, r': Row, charges: seq<Charge>)
    requires RowFrom(r, charges) && r'.identity == r.identity && r'.name == r.name
    ensures RowFrom(r', charges)
  {
    hide Key, Selects;
    var i :| FirstOf(charges, InRow(RowKey(r)), i) && RowNamed(r, charges[i]);
    assert RowKey(r') == RowKey(r);
  }

  /* ---------- Hot program counters ---------- */

  type HotMap = map<string, map<UInt64, HotPc>>

  /** What an exporter relies on: a site that is named and holds the offset, callers only with a source. */
  predicate Described(pc: HotPc) {
    && (pc.site.Some? ==> pc.site.value.kind != "" && pc.site.value.span.Contains(pc.offset))
    && (pc.source.Some? ==> pc.source.value.span.Contains(pc.offset))
    && (pc.source.None? ==> pc.callers == [])
  }

  ghost predicate PcOk(pc: HotPc, key: string, offset: UInt64, charges: seq<Charge>, samples: seq<Sample>)
    requires |charges| == |samples|
  {
    pc.offset == offset && Described(pc) && pc.Sum() == TallyOf(charges, samples, AtPc(key, offset))
  }

  ghost predicate HotOk(hot: HotMap, keys: set<string>, buckets: set<Bucket>, charges: seq<Charge>, samples: seq<Sample>)
    requires |charges| == |samples|
  {
    && hot.Keys == keys
    && (forall k, o :: k in hot ==> (o in hot[k] <==> (k, o) in buckets))
    && (forall k, o :: k in hot && o in hot[k] ==> PcOk(hot[k][o], k, o, charges, samples))
  }

  /** Site, source and callers are those that the image of the charge gives for the offset. */
  ghost predicate PcExplained(pc: HotPc, c: Charge) {
    && c.Hit? && SiteAt(c.image.codeSites, pc.offset, pc.site) && SourceAt(c.image.sources, pc.offset, pc.source)
    && pc.callers == CallersOf(c)
  }

  /** The first charge of the program counter explains it. */
  ghost predicate PcFrom(pc: HotPc, key: string, charges: seq<Charge>) {
    exists i :: FirstOf(charges, AtPc(key, pc.offset), i) && PcExplained(pc, charges[i])
  }

  ghost predicate HotFrom(hot: HotMap, charges: seq<Charge>) {
    forall k, o :: k in hot && o in hot[k] ==> PcFrom(hot[k][o], k, charges)
  }

  lemma PcFromStays(pc: HotPc, key: string, charges: seq<Charge>, c: Charge)
    requires PcFrom(pc, key, charges)
    ensures PcFrom(pc, key, charges + [c])
  {
    hide Selects, PcExplained;
    var i :| FirstOf(charges, AtPc(key, pc.offset), i) && PcExplained(pc, charges[i]);
    FirstStays(charges, c, AtPc(key, pc.offset), i);
  }

  lemma PcFromNew(pc: HotPc, charges: seq<Charge>, c: Charge)
    requires c.Hit? && pc.offset == c.offset && PcExplained(pc, c) && (KeyOf(c), c.offset) !in BucketsOf(charges)
    ensures PcFrom(pc, KeyOf(c), charges + [c])
  {
    hide KeyOf, BucketsOf, PcExplained;
    NoBucket(charges, KeyOf(c), c.offset);
    FirstCome(charges, c, AtPc(KeyOf(c), c.offset));
    assert (charges + [c])[|charges|] == c;
  }

  lemma HotFromStays(hot: HotMap, charges: seq<Charge>, c: Charge)
    requires HotFrom(hot, charges)
    ensures HotFrom(hot, charges + [c])
  {
    hide PcFrom;
    forall k, o | k in hot && o in hot[k] ensures PcFrom(hot[k][o], k, charges + [c]) { PcFromStays(hot[k][o], k, charges, c); }
  }

  lemma HotFromWith(hot: HotMap, key: string, pc: HotPc, charges: seq<Charge>)
    requires HotFrom(hot, charges) && key in hot && PcFrom(pc, key, charges)
    ensures HotFrom(WithPc(hot, key, pc), charges)
  {
    hide PcFrom, WithPc;
  }

  lemma PcFromSame(pc: HotPc, pc': HotPc, key: string, charges: seq<Charge>)
    requires PcFrom(pc, key, charges)
    requires pc'.offset == pc.offset && pc'.site == pc.site && pc'.source == pc.source && pc'.callers == pc.callers
    ensures PcFrom(pc', key, charges)
  {
    hide Selects;
    var i :| FirstOf(charges, AtPc(key, pc.offset), i) && PcExplained(pc, charges[i]);
    assert PcExplained(pc', charges[i]);
  }

  function WithPc(hot: HotMap, key: string, pc: HotPc): (r: HotMap)
    requires key in hot
    ensures r.Keys == hot.Keys
    ensures forall k :: k in hot && k != key ==> r[k] == hot[k]
    ensures r[key].Keys == hot[key].Keys + {pc.offset} && r[key][pc.offset] == pc
    ensures forall o :: o in hot[key] && o != pc.offset ==> r[key][o] == hot[key][o]
  {
    hot[key := hot[key] + map[pc.offset := pc]]
  }

  lemma PcStep(pc: HotPc, key: string, offset: UInt64, charges: seq<Charge>, samples: seq<Sample>, c: Charge, s: Sample, pc': HotPc)
    requires |charges| == |samples| && PcOk(pc, key, offset, charges, samples)
    requires pc'.offset == offset && Described(pc')
    requires pc'.Sum() == pc.Sum().Plus(One(Selects(AtPc(key, offset), c), s.period))
    ensures PcOk(pc', key, offset, charges + [c], samples + [s])
  {
    TallyStep(charges, samples, c, s, AtPc(key, offset));
  }

  lemma PcOther(pc: HotPc, key: string, offset: UInt64, charges: seq<Charge>, samples: seq<Sample>, c: Charge, s: Sample)
    requires |charges| == |samples| && PcOk(pc, key, offset, charges, samples) && !Selects(AtPc(key, offset), c)
    ensures PcOk(pc, key, offset, charges + [c], samples + [s])
  {
    PlusNothing(pc.Sum(), s.period);
    PcStep(pc, key, offset, charges, samples, c, s, pc);
  }

  lemma HotNew(hot: HotMap, keys: set<string>, buckets: set<Bucket>, charges: seq<Charge>, samples: seq<Sample>, key: string)
    requires |charges| == |samples| && HotOk(hot, keys, buckets, charges, samples)
    requires key !in keys && forall o :: (key, o) !in buckets
    ensures HotOk(hot[key := map[]], keys + {key}, buckets, charges, samples)
  {
    hide PcOk;
  }

  lemma HotPcNew(hot: HotMap, keys: set<string>, buckets: set<Bucket>, charges: seq<Charge>, samples: seq<Sample>, key: string, pc: HotPc)
    requires |charges| == |samples| && HotOk(hot, keys, buckets, charges, samples)
    requires key in keys && (key, pc.offset) !in buckets && BucketsOf(charges) <= buckets
    requires Described(pc) && pc.Sum() == Tally(0, 0)
    ensures HotOk(WithPc(hot, key, pc), keys, buckets + {(key, pc.offset)}, charges, samples)
  {
    hide TallyOf, BucketsOf, WithPc;
    NoBucket(charges, key, pc.offset);
    TallyNone(charges, samples, AtPc(key, pc.offset));
    assert PcOk(pc, key, pc.offset, charges, samples);
    hide PcOk;
  }

  lemma NoBucket(charges: seq<Charge>, key: string, offset: UInt64)
    requires (key, offset) !in BucketsOf(charges)
    ensures forall c :: c in charges ==> !Selects(AtPc(key, offset), c)
  {
  }

  lemma HotBump(hot: HotMap, keys: set<string>, buckets: set<Bucket>, charges: seq<Charge>, samples: seq<Sample>,
                c: Charge, s: Sample, pc: HotPc)
    requires |charges| == |samples| && HotOk(hot, keys, buckets, charges, samples) && c.Hit?
    requires KeyOf(c) in hot && c.offset in hot[KeyOf(c)]
    requires pc.offset == c.offset && Described(pc) && pc.Sum() == hot[KeyOf(c)][c.offset].Sum().Plus(One(true, s.period))
    ensures HotOk(WithPc(hot, KeyOf(c), pc), keys, buckets, charges + [c], samples + [s])
  {
    hide TallyOf, PcOk, KeyOf, WithPc;
    var key := KeyOf(c);
    var hot' := WithPc(hot, key, pc);
    forall k, o | k in hot' && o in hot'[k] ensures PcOk(hot'[k][o], k, o, charges + [c], samples + [s]) {
      SelectsPc(k, o, c);
      if k == key && o == c.offset {
        PcStep(hot[k][o], k, o, charges, samples, c, s, pc);
      } else {
        PcOther(hot[k][o], k, o, charges, samples, c, s);
      }
    }
  }

  lemma SelectsPc(key: string, offset: UInt64, c: Charge)
    ensures Selects(AtPc(key, offset), c) <==> c.Hit? && KeyOf(c) == key && c.offset == offset
  {
  }

  lemma HotMissed(hot: HotMap, keys: set<string>, buckets: set<Bucket>, charges: seq<Charge>, samples: seq<Sample>, s: Sample)
    requires |charges| == |samples| && HotOk(hot, keys, buckets, charges, samples)
    ensures HotOk(hot, keys, buckets, charges + [Missed], samples + [s])
  {
    hide TallyOf, PcOk;
    forall k, o | k in hot && o in hot[k] ensures PcOk(hot[k][o], k, o, charges + [Missed], samples + [s]) {
      SelectsPc(k, o, Missed);
      PcOther(hot[k][o], k, o, charges, samples, Missed, s);
    }
  }

  /* ---------- A new hot program counter ---------- */

  /** The compiler's explanation of an offset, and the inline ancestry of its source. */
  method Describe(im: Image, offset: UInt64) returns (pc: HotPc)
    requires ImageValid(im)
    ensures pc.offset == offset && pc.Sum() == Tally(0, 0) && Described(pc)
    ensures SiteAt(im.codeSites, offset, pc.site) && SourceAt(im.sources, offset, pc.source)
    ensures forall r :: pc.callers == CallersOf(Hit(im, r, offset))
  {
    var site := LookupCodeSite(im.codeSites, im.size, offset);
    assert site.Some? ==> exists i :: 0 <= i < |im.codeSites| && im.codeSites[i] == site.value;
    var source := LookupSource(im.sources, im.size, offset);
    var found := SourceOf(im.sources, offset);
    assert source == found;
    var callers := [];
    if source.Some? {
      assert source.value.inlineParent <= |im.inlineFrames| by {
        var i :| 0 <= i < |im.sources| && im.sources[i] == source.value;
      }
      callers := InlineCallers(im.inlineFrames, source.value.inlineParent);
    }
    pc := HotPc(offset, 0, 0, site, source, callers);
  }

  /** A sample's key and offset have an entry, made on first use if the limits allow. */
  method EntryFor(hot: HotMap, hotCount: nat, inlineCount: nat, c: Charge, limits: Limits,
                  ghost charges: seq<Charge>, ghost samples: seq<Sample>)
    returns (ok: bool, hot': HotMap, hotCount': nat, inlineCount': nat)
    requires |samples| == |charges| && c.Hit? && ImageValid(c.image)
    requires HotOk(hot, RowKeysOf(charges), BucketsOf(charges), charges, samples) && HotFrom(hot, charges)
    requires hotCount == |BucketsOf(charges)| <= limits.hotPCs && inlineCount == InlineTotal(charges) <= limits.metadata
    ensures ok <==> |BucketsOf(charges + [c])| <= limits.hotPCs && InlineTotal(charges + [c]) <= limits.metadata
    ensures ok ==> HotOk(hot', RowKeysOf(charges + [c]), BucketsOf(charges + [c]), charges, samples)
    ensures ok ==> hotCount' == |BucketsOf(charges + [c])| && inlineCount' == InlineTotal(charges + [c])
    ensures ok ==> HotFrom(hot', charges + [c])
  {
    hide HotFrom, PcFrom, PcExplained, TallyOf, Key, KeyOf, RowKeysOf, BucketsOf, CallersOf, HotOk, InlineTotal, ImageValid, Described, SourceAt, SiteAt;
    hot', hotCount', inlineCount' := hot, hotCount, inlineCount;
    HotFromStays(hot, charges, c);
    var key, offset := KeyOf(c), c.offset;
    ghost var buckets := BucketsOf(charges);
    RowKeysStep(charges, c);
    BucketsStep(charges, c);
    InlineStep(charges, c);
    if key !in hot' {
      HotKeys(hot', RowKeysOf(charges), buckets, charges, samples, key, offset);
      NoKeyNoBucket(charges, key);
      HotNew(hot', RowKeysOf(charges), buckets, charges, samples, key);
      HotFromKey(hot', key, charges + [c]);
      hot' := hot'[key := map[]];
    } else {
      HotKeys(hot', RowKeysOf(charges), buckets, charges, samples, key, offset);
      assert RowKeysOf(charges) + {key} == RowKeysOf(charges);
    }
    HotKeys(hot', RowKeysOf(charges + [c]), buckets, charges, samples, key, offset);
    if offset in hot'[key] {
      assert buckets + {(key, offset)} == buckets;
      return true, hot', hotCount', inlineCount';
    }
    assert |buckets + {(key, offset)}| == |buckets| + 1;
    hotCount' := hotCount' + 1;
    if hotCount' > limits.hotPCs { return false, hot', hotCount', inlineCount'; }
    var pc := Describe(c.image, offset);
    assert pc.callers == CallersOf(Hit(c.image, c.region, offset)) && c == Hit(c.image, c.region, offset);
    inlineCount' := inlineCount' + |pc.callers|;
    if inlineCount' > limits.metadata { return false, hot', hotCount', inlineCount'; }
    HotPcNew(hot', RowKeysOf(charges + [c]), buckets, charges, samples, key, pc);
    ExplainedHere(pc, c);
    PcFromNew(pc, charges, c);
    HotFromWith(hot', key, pc, charges + [c]);
    hot' := WithPc(hot', key, pc);
    ok := true;
  }

  lemma HotFromKey(hot: HotMap, key: string, charges: seq<Charge>)
    requires HotFrom(hot, charges) && key !in hot
    ensures HotFrom(hot[key := map[]], charges)
  {
    hide PcFrom;
  }

  lemma HotFromAt(hot: HotMap, key: string, offset: UInt64, charges: seq<Charge>)
    requires HotFrom(hot, charges) && key in hot && offset in hot[key]
    ensures PcFrom(hot[key][offset], key, charges)
  {
  }

  lemma ExplainedHere(pc: HotPc, c: Charge)
    requires c.Hit? && pc.offset == c.offset && SiteAt(c.image.codeSites, c.offset, pc.site)
    requires SourceAt(c.image.sources, c.offset, pc.source) && pc.callers == CallersOf(c)
    ensures PcExplained(pc, c)
  {
  }

  lemma HotKeys(hot: HotMap, keys: set<string>, buckets: set<Bucket>, charges: seq<Charge>, samples: seq<Sample>, key: string, offset: UInt64)
    requires |charges| == |samples| && HotOk(hot, keys, buckets, charges, samples)
    ensures key in hot <==> key in keys
    ensures key in hot ==> (offset in hot[key] <==> (key, offset) in buckets)
    ensures key in hot && offset in hot[key] ==> PcOk(hot[key][offset], key, offset, charges, samples)
  {
  }

  method ChargePc(hot: HotMap, hotCount: nat, inlineCount: nat, c: Charge, s: Sample, limits: Limits,
                  ghost charges: seq<Charge>, ghost samples: seq<Sample>)
    returns (ok: bool, hot': HotMap, hotCount': nat, inlineCount': nat)
    requires Fits(charges + [c], samples + [s]) && |samples| == |charges| && c.Hit? && ImageValid(c.image)
    requires HotOk(hot, RowKeysOf(charges), BucketsOf(charges), charges, samples) && HotFrom(hot, charges)
    requires hotCount == |BucketsOf(charges)| <= limits.hotPCs && inlineCount == InlineTotal(charges) <= limits.metadata
    ensures ok <==> |BucketsOf(charges + [c])| <= limits.hotPCs && InlineTotal(charges + [c]) <= limits.metadata
    ensures ok ==> HotOk(hot', RowKeysOf(charges + [c]), BucketsOf(charges + [c]), charges + [c], samples + [s])
    ensures ok ==> hotCount' == |BucketsOf(charges + [c])| && inlineCount' == InlineTotal(charges + [c])
    ensures ok ==> HotFrom(hot', charges + [c])
  {
    hide HotFrom, PcFrom, PcExplained, TallyOf, Key, KeyOf, RowKeysOf, BucketsOf, HotOk, InlineTotal, ImageValid, Described, PcOk;
    ok, hot', hotCount', inlineCount' := EntryFor(hot, hotCount, inlineCount, c, limits, charges, samples);
    if !ok { return; }
    var key, offset := KeyOf(c), c.offset;
    RowKeysStep(charges, c);
    BucketsStep(charges, c);
    HotKeys(hot', RowKeysOf(charges + [c]), BucketsOf(charges + [c]), charges, samples, key, offset);
    var was := hot'[key][offset];
    PcSum(was, key, offset, charges, samples);
    SelectsPc(key, offset, c);
    Room(charges, samples, c, s, AtPc(key, offset));
    var pc := was.(samples := was.samples + 1, weight := was.weight + s.period);
    DescribedSame(was, pc);
    HotBump(hot', RowKeysOf(charges + [c]), BucketsOf(charges + [c]), charges, samples, c, s, pc);
    HotFromAt(hot', key, offset, charges + [c]);
    PcFromSame(was, pc, key, charges + [c]);
    HotFromWith(hot', key, pc, charges + [c]);
    hot' := WithPc(hot', key, pc);
  }

  lemma DescribedSame(pc: HotPc, pc': HotPc)
    requires Described(pc) && pc'.offset == pc.offset && pc'.site == pc.site && pc'.source == pc.source && pc'.callers == pc.callers
    ensures Described(pc')
  {
  }

  lemma PcSum(pc: HotPc, key: string, offset: UInt64, charges: seq<Charge>, samples: seq<Sample>)
    requires |charges| == |samples| && PcOk(pc, key, offset, charges, samples)
    ensures pc.offset == offset && Described(pc) && pc.Sum() == TallyOf(charges, samples, AtPc(key, offset))
  {
  }

  lemma NoKeyNoBucket(charges: seq<Charge>, key: string)
    requires key !in RowKeysOf(charges)
    ensures forall o :: (key, o) !in BucketsOf(charges)
  {
  }

  lemma InlineStep(charges: seq<Charge>, c: Charge)
    ensures InlineTotal(charges + [c])
         == InlineTotal(charges) + if c.Hit? && (KeyOf(c), c.offset) !in BucketsOf(charges) then |CallersOf(c)| else 0
  {
    assert (charges + [c])[..|charges|] == charges;
  }
}
