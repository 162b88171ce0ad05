/**
 What a resolved sample is charged to, and how charges add up: independent of the index,
 the row tables and the order in which the resolver fills them.
 */
module Charges {
  import opened Options
  import opened Words
  import opened UnwindRules
  import opened CodeImages
  import opened LiveSets
  import opened RowKeys

  datatype Sample = Sample(timestamp: UInt64, pc: UInt64, period: UInt64)

  /** A sample lands in a region of a live image, or nowhere known. */
  datatype Charge = Missed | Hit(image: Image, region: Region, offset: UInt64)

  ghost predicate Charged(live: Live, pc: UInt64, c: Charge) {
    match c
    case Hit(im, r, offset) =>
      && im.id in live && live[im.id] == im && im.Contains(pc)
      && offset == pc - im.base && r in im.regions && r.span.Contains(offset) && Attributable(r)
    case Missed =>
      forall id, r :: id in live && r in live[id].regions && live[id].Contains(pc) && r.span.Contains(pc - live[id].base) ==> !Attributable(r)
  }

  ghost predicate LiveValid(live: Live) {
    forall id :: id in live ==> live[id].id == id && ImageValid(live[id])
  }

  /** On a valid disjoint set, the charge of a program counter is determined. */
  lemma ChargedUnique(live: Live, pc: UInt64, c: Charge, d: Charge)
    requires LiveValid(live) && Disjoint(live) && Charged(live, pc, c) && Charged(live, pc, d)
    ensures c == d
  {
    match (c, d) {
      case (Hit(im, r, o), Hit(im', r', o')) =>
        assert im.id == im'.id || Apart(live[im.id], live[im'.id]);
        RegionUnique(im.regions, im.size, o, r);
      case _ =>
    }
  }

  /* ---------- Groups of charges ---------- */

  /** Function bodies share one row per function; other regions have a row each. */
  function IdentityOf(im: Image, r: Region): Identity {
    if r.function_ >= 0 then Identity(im.moduleID, im.artifactID, r.function_, "function", 0)
    else Identity(im.moduleID, im.artifactID, r.function_, r.kind, r.span.offset)
  }

  function KeyOf(c: Charge): string
    requires c.Hit?
  {
    Key(IdentityOf(c.image, c.region))
  }

  datatype Group = Everything | Unknown | InRow(key: string) | AtPc(key: string, offset: UInt64)

  predicate Selects(g: Group, c: Charge) {
    match g
    case Everything => true
    case Unknown => c.Missed?
    case InRow(key) => c.Hit? && KeyOf(c) == key
    case AtPc(key, offset) => c.Hit? && KeyOf(c) == key && c.offset == offset
  }

  /** Charge `i` is the first of its group. */
  ghost predicate FirstOf(charges: seq<Charge>, g: Group, i: int) {
    0 <= i < |charges| && Selects(g, charges[i]) && forall j :: 0 <= j < i ==> !Selects(g, charges[j])
  }

  lemma FirstStays(charges: seq<Charge>, c: Charge, g: Group, i: int)
    requires FirstOf(charges, g, i)
    ensures FirstOf(charges + [c], g, i) && (charges + [c])[i] == charges[i]
  {
  }

  lemma FirstCome(charges: seq<Charge>, c: Charge, g: Group)
    requires Selects(g, c) && forall d :: d in charges ==> !Selects(g, d)
    ensures FirstOf(charges + [c], g, |charges|)
  {
  }

  datatype Tally = Tally(samples: nat, weight: nat) {
    function Plus(t: Tally): Tally {
      Tally(samples + t.samples, weight + t.weight)
    }
  }

  function One(chosen: bool, period: nat): Tally {
    if chosen then Tally(1, period) else Tally(0, 0)
  }

  /** The number and total weight of the samples charged to a group. */
  function TallyOf(charges: seq<Charge>, samples: seq<Sample>, g: Group): Tally
    requires |charges| == |samples|
  {
    if |charges| == 0 then Tally(0, 0)
    else
      var n := |charges| - 1;
      TallyOf(charges[..n], samples[..n], g).Plus(One(Selects(g, charges[n]), samples[n].period))
  }

  lemma TallyStep(charges: seq<Charge>, samples: seq<Sample>, c: Charge, s: Sample, g: Group)
    requires |charges| == |samples|
    ensures TallyOf(charges + [c], samples + [s], g) == TallyOf(charges, samples, g).Plus(One(Selects(g, c), s.period))
  {
    assert (charges + [c])[..|charges|] == charges && (samples + [s])[..|samples|] == samples;
  }

  function TallySum(charges: seq<Charge>, samples: seq<Sample>, groups: seq<Group>): Tally
    requires |charges| == |samples|
  {
    if |groups| == 0 then Tally(0, 0)
    else TallySum(charges, samples, groups[..|groups| - 1]).Plus(TallyOf(charges, samples, groups[|groups| - 1]))
  }

  /** In how many of the groups a charge is. */
  function Hits(groups: seq<Group>, c: Charge): nat {
    if |groups| == 0 then 0
    else Hits(groups[..|groups| - 1], c) + if Selects(groups[|groups| - 1], c) then 1 else 0
  }

  ghost predicate Partition(charges: seq<Charge>, groups: seq<Group>, whole: Group) {
    forall c :: c in charges ==> Hits(groups, c) == if Selects(whole, c) then 1 else 0
  }

  lemma {:induction false} SumEmpty(groups: seq<Group>)
    ensures TallySum([], [], groups) == Tally(0, 0)
  {
    if |groups| > 0 { SumEmpty(groups[..|groups| - 1]); }
  }

  function HitTally(groups: seq<Group>, c: Charge, period: nat): Tally {
    if |groups| == 0 then Tally(0, 0)
    else HitTally(groups[..|groups| - 1], c, period).Plus(One(Selects(groups[|groups| - 1], c), period))
  }

  lemma {:induction false} HitOnce(groups: seq<Group>, c: Charge, period: nat)
    requires Hits(groups, c) <= 1
    ensures HitTally(groups, c, period) == One(Hits(groups, c) == 1, period)
    decreases |groups|
  {
    if |groups| > 0 { HitOnce(groups[..|groups| - 1], c, period); }
  }

  lemma {:induction false} SumUnfolds(charges: seq<Charge>, samples: seq<Sample>, groups: seq<Group>)
    requires |charges| == |samples| > 0
    ensures TallySum(charges, samples, groups)
            == TallySum(charges[..|charges| - 1], samples[..|charges| - 1], groups)
               .Plus(HitTally(groups, charges[|charges| - 1], samples[|charges| - 1].period))
    decreases |groups|
  {
    if |groups| > 0 {
      var n, m := |charges| - 1, |groups| - 1;
      SumUnfolds(charges, samples, groups[..m]);
      PlusSwap(TallySum(charges[..n], samples[..n], groups[..m]), HitTally(groups[..m], charges[n], samples[n].period),
               TallyOf(charges[..n], samples[..n], groups[m]), One(Selects(groups[m], charges[n]), samples[n].period));
    }
  }

  lemma PlusSwap(a: Tally, b: Tally, c: Tally, d: Tally)
    ensures a.Plus(b).Plus(c.Plus(d)) == a.Plus(c).Plus(b.Plus(d))
  {
  }

  /** Groups that partition a whole add up to it. */
  lemma {:induction false} PartitionAdds(charges: seq<Charge>, samples: seq<Sample>, groups: seq<Group>, whole: Group)
    requires |charges| == |samples| && Partition(charges, groups, whole)
    ensures TallySum(charges, samples, groups) == TallyOf(charges, samples, whole)
    decreases |charges|
  {
    hide TallySum, HitTally, Hits, Selects, Tally.Plus;
    if |charges| == 0 {
      assert charges == [] && samples == [];
      SumEmpty(groups);
    } else {
      var n := |charges| - 1;
      assert charges[n] in charges;
      PartitionAdds(charges[..n], samples[..n], groups, whole);
      SumUnfolds(charges, samples, groups);
      HitOnce(groups, charges[n], samples[n].period);
    }
  }

  /** A group is never more than all samples. */
  lemma {:induction false} TallyBounded(charges: seq<Charge>, samples: seq<Sample>, g: Group)
    requires |charges| == |samples|
    ensures TallyOf(charges, samples, g).samples <= |samples|
    ensures TallyOf(charges, samples, g).weight <= TallyOf(charges, samples, Everything).weight
    decreases |charges|
  {
    if |charges| > 0 { TallyBounded(charges[..|charges| - 1], samples[..|samples| - 1], g); }
  }

  /* ---------- Distinct keys and offsets ---------- */

  function RowKeysOf(charges: seq<Charge>): (r: set<string>)
    ensures forall k :: k in r <==> exists i :: 0 <= i < |charges| && charges[i].Hit? && KeyOf(charges[i]) == k
  {
    set i | 0 <= i < |charges| && charges[i].Hit? :: KeyOf(charges[i])
  }

  type Bucket = (string, UInt64)

  function BucketsOf(charges: seq<Charge>): (r: set<Bucket>)
    ensures forall b :: b in r <==> exists i :: 0 <= i < |charges| && charges[i].Hit? && (KeyOf(charges[i]), charges[i].offset) == b
  {
    set i | 0 <= i < |charges| && charges[i].Hit? :: (KeyOf(charges[i]), charges[i].offset)
  }

  lemma RowKeysStep(charges: seq<Charge>, c: Charge)
    ensures RowKeysOf(charges + [c]) == RowKeysOf(charges) + if c.Hit? then {KeyOf(c)} else {}
  {
    var all := charges + [c];
    forall k | k in RowKeysOf(charges) ensures k in RowKeysOf(all) {
      var i :| 0 <= i < |charges| && charges[i].Hit? && KeyOf(charges[i]) == k;
      assert all[i] == charges[i];
    }
    if c.Hit? { assert all[|charges|] == c; }
  }

  lemma BucketsStep(charges: seq<Charge>, c: Charge)
    ensures BucketsOf(charges + [c]) == BucketsOf(charges) + if c.Hit? then {(KeyOf(c), c.offset)} else {}
  {
    var all := charges + [c];
    forall b | b in BucketsOf(charges) ensures b in BucketsOf(all) {
      var i :| 0 <= i < |charges| && charges[i].Hit? && (KeyOf(charges[i]), charges[i].offset) == b;
      assert all[i] == charges[i];
    }
    if c.Hit? { assert all[|charges|] == c; }
  }

  /* ---------- Inline ancestry attached to hot program counters ---------- */

  function SourceOf(sources: seq<SourceRange>, offset: int): (r: Option<SourceRange>)
    ensures r.Some? ==> r.value in sources && r.value.span.Contains(offset)
    ensures r.None? ==> forall s :: s in sources ==> !s.span.Contains(offset)
  {
    if |sources| == 0 then None
    else if sources[0].span.Contains(offset) then Some(sources[0])
    else SourceOf(sources[1..], offset)
  }

  function CallersOf(c: Charge): seq<InlineFrame> {
    if c.Hit? && InlineValid(c.image.sources, c.image.inlineFrames) then
      var s := SourceOf(c.image.sources, c.offset);
      if s.Some? then Ancestry(c.image.inlineFrames, s.value.inlineParent) else []
    else []
  }

  /** Inline frames are expanded once per distinct program counter, at its first sample. */
  function InlineTotal(charges: seq<Charge>): nat {
    if |charges| == 0 then 0
    else
      var n := |charges| - 1;
      var c := charges[n];
      InlineTotal(charges[..n]) + if c.Hit? && (KeyOf(c), c.offset) !in BucketsOf(charges[..n]) then |CallersOf(c)| else 0
  }

  /* ---------- Which samples share a row, in terms of charges ---------- */

  /** Same module and artifact, and one function body, or one region that belongs to no function. */
  ghost predicate Together(c: Charge, d: Charge) {
    && c.Hit? && d.Hit? && c.image.moduleID == d.image.moduleID && c.image.artifactID == d.image.artifactID
    && c.region.function_ == d.region.function_
    && (c.region.function_ < 0 ==> c.region.kind == d.region.kind && c.region.span.offset == d.region.span.offset)
  }

  /** No separator in the artifact, nor in the kind where it matters. */
  predicate Plain(c: Charge) {
    c.Hit? ==> '/' !in c.image.artifactID && (c.region.function_ < 0 ==> '/' !in c.region.kind)
  }

  /** Plain charges share a key exactly when they belong together. */
  lemma TogetherIsKey(c: Charge, d: Charge)
    requires c.Hit? && d.Hit? && Plain(c) && Plain(d)
    ensures KeyOf(c) == KeyOf(d) <==> Together(c, d)
  {
    hide Key;
    KeyInjective(IdentityOf(c.image, c.region), IdentityOf(d.image, d.region));
  }

  /** The tally of the charges that belong together with one. */
  ghost function TallyWith(charges: seq<Charge>, samples: seq<Sample>, c: Charge): Tally
    requires |charges| == |samples|
  {
    if |charges| == 0 then Tally(0, 0)
    else
      var n := |charges| - 1;
      TallyWith(charges[..n], samples[..n], c).Plus(One(Together(c, charges[n]), samples[n].period))
  }

  lemma {:induction false} TallyWithIsRow(charges: seq<Charge>, samples: seq<Sample>, c: Charge)
    requires |charges| == |samples| && c.Hit? && Plain(c) && forall d :: d in charges ==> Plain(d)
    ensures TallyWith(charges, samples, c) == TallyOf(charges, samples, InRow(KeyOf(c)))
    decreases |charges|
  {
    hide KeyOf, Together;
    if |charges| > 0 {
      var n := |charges| - 1;
      TallyWithIsRow(charges[..n], samples[..n], c);
      assert charges[n] in charges;
      TogetherHits(c, charges[n]);
    }
  }

  lemma TogetherHits(c: Charge, d: Charge)
    requires c.Hit? && Plain(c) && Plain(d)
    ensures Together(c, d) <==> Selects(InRow(KeyOf(c)), d)
  {
    hide KeyOf;
    if d.Hit? { TogetherIsKey(c, d); }
  }
}
