/**
 Sets of live code images, as plain values: what the lifecycle events leave mapped, and when
 checking the neighbours of changed loads is enough to keep the set pairwise disjoint.
 */
module LiveSets {
  import opened Options
  import opened Words
  import opened UnwindRules
  import opened CodeImages

  datatype Event = Event(timestamp: UInt64, sequence: UInt64, kind: string, imageID: UInt64, image: Option<Image>)

  predicate IsLoad(e: Event) {
    e.kind == "load" && e.image.Some?
  }

  /* ---------- The reference: a plain map from ID to image ---------- */

  type Live = map<UInt64, Image>

  /** Loading replaces the image of that ID; an empty image maps nothing. */
  function Loaded(live: Live, im: Image): Live {
    if im.size != 0 then live[im.id := im] else live - {im.id}
  }

  lemma ReplaceIsLoad(live: Live, im: Image)
    ensures Loaded(live, im) == if im.size != 0 then (live - {im.id})[im.id := im] else live - {im.id}
  {
  }

  function AfterEvent(live: Live, e: Event): Live {
    if IsLoad(e) then Loaded(live, e.image.value)
    else if e.kind == "retire" then live - {e.imageID}
    else live
  }

  /** What the first k events leave mapped. */
  function LiveAfter(events: seq<Event>, k: nat): Live
    requires k <= |events|
  {
    if k == 0 then map[] else AfterEvent(LiveAfter(events, k - 1), events[k - 1])
  }

  const MAX_UINT64 := 0xFFFF_FFFF_FFFF_FFFF

  predicate Apart(a: Image, b: Image) {
    a.End() <= b.base || b.End() <= a.base
  }

  /** No image runs past the address space, and no two overlap. */
  ghost predicate Disjoint(live: Live) {
    && (forall id :: id in live ==> live[id].End() <= MAX_UINT64)
    && (forall a, b :: a in live && b in live && a != b ==> Apart(live[a], live[b]))
  }

  /* ---------- Slots in address order ---------- */

  type Slots = seq<Option<Image>>

  ghost predicate Ordered(slots: Slots) {
    && (forall p, q :: 0 <= p < q < |slots| && slots[p].Some? && slots[q].Some? ==> slots[p].value.base <= slots[q].value.base)
    && (forall p :: 0 <= p < |slots| && slots[p].Some? ==> slots[p].value.size != 0)
  }

  ghost predicate SlotsDisjoint(slots: Slots) {
    && (forall p :: 0 <= p < |slots| && slots[p].Some? ==> slots[p].value.End() <= MAX_UINT64)
    && (forall p, q :: 0 <= p < q < |slots| && slots[p].Some? && slots[q].Some? ==> slots[p].value.End() <= slots[q].value.base)
  }

  ghost predicate Vacant(slots: Slots, lo: int, hi: int) {
    forall k :: lo <= k < hi && 0 <= k < |slots| ==> slots[k].None?
  }

  /** q is the closest occupied slot after p. */
  ghost predicate Neighbours(slots: Slots, p: int, q: int) {
    0 <= p < q < |slots| && slots[p].Some? && slots[q].Some? && Vacant(slots, p + 1, q)
  }

  function Wrap(x: int): UInt64 {
    x % 0x1_0000_0000_0000_0000
  }

  /** What the check of one changed position looks at. */
  ghost predicate Passes(slots: Slots, p: int)
    requires 0 <= p < |slots|
  {
    slots[p].Some? ==>
      && slots[p].value.End() <= MAX_UINT64
      && (forall q :: Neighbours(slots, q, p) ==> Wrap(slots[q].value.End()) <= slots[p].value.base)
      && (forall q :: Neighbours(slots, p, q) ==> slots[p].value.End() <= slots[q].value.base)
  }

  /** Each occupied slot was loaded by this batch or was occupied by the same image before it. */
  ghost predicate Batch(before: Slots, after: Slots, changed: set<int>) {
    && |before| == |after|
    && (forall p :: p in changed ==> 0 <= p < |after|)
    && (forall p :: 0 <= p < |after| && after[p].Some? ==> p in changed || before[p] == after[p])
  }

  lemma BatchUpdate(slots: Slots, p: int, s: Option<Image>)
    requires 0 <= p < |slots|
    ensures Batch(slots, slots[p := s], if s.Some? then {p} else {})
  {
  }

  lemma BatchSame(slots: Slots, p: int)
    requires 0 <= p < |slots|
    ensures Batch(slots, slots, {p})
  {
  }

  lemma BatchNone(slots: Slots)
    ensures Batch(slots, slots, {})
  {
  }

  lemma BatchThen(a: Slots, b: Slots, c: Slots, first: set<int>, second: set<int>)
    requires Batch(a, b, first) && Batch(b, c, second)
    ensures Batch(a, c, first + second)
  {
  }

  lemma {:induction false} NextOccupied(slots: Slots, p: int, q: int) returns (n: int)
    requires 0 <= p < q < |slots| && slots[p].Some? && slots[q].Some?
    ensures p < n <= q && Neighbours(slots, p, n)
  {
    n := p + 1;
    while slots[n].None?
      invariant p < n <= q && Vacant(slots, p + 1, n)
      decreases q - n
    {
      n := n + 1;
    }
  }

  /** Disjoint neighbours make the whole row disjoint. */
  lemma {:induction false} NeighboursSuffice(slots: Slots, p: int, q: int)
    requires Ordered(slots) && 0 <= p < q < |slots| && slots[p].Some? && slots[q].Some?
    requires forall a, b :: Neighbours(slots, a, b) ==>
      0 <= a < b < |slots| && slots[a].Some? && slots[b].Some? && slots[a].value.End() <= slots[b].value.base
    ensures slots[p].value.End() <= slots[q].value.base
    decreases q - p
  {
    var n := NextOccupied(slots, p, q);
    if n < q { NeighboursSuffice(slots, n, q); }
  }

  ghost predicate AllPass(slots: Slots, changed: set<int>)
    requires forall p :: p in changed ==> 0 <= p < |slots|
  {
    forall p :: p in changed ==> Passes(slots, p)
  }

  lemma PassingFits(before: Slots, after: Slots, changed: set<int>, p: int)
    requires SlotsDisjoint(before) && Batch(before, after, changed) && AllPass(after, changed)
    requires 0 <= p < |after| && after[p].Some?
    ensures after[p].value.End() <= MAX_UINT64
  {
    if p in changed { assert Passes(after, p); } else { assert before[p] == after[p]; }
  }

  lemma PassingNeighbours(before: Slots, after: Slots, changed: set<int>, a: int, b: int)
    requires SlotsDisjoint(before) && Batch(before, after, changed) && AllPass(after, changed)
    requires Neighbours(after, a, b)
    ensures after[a].value.End() <= after[b].value.base
  {
    PassingFits(before, after, changed, a);
    if a in changed {
      assert Passes(after, a);
    } else if b in changed {
      assert Passes(after, b);
    } else {
      assert before[a] == after[a] && before[b] == after[b];
    }
  }

  lemma PassingIsDisjoint(before: Slots, after: Slots, changed: set<int>)
    requires Ordered(after) && SlotsDisjoint(before) && Batch(before, after, changed) && AllPass(after, changed)
    ensures SlotsDisjoint(after)
  {
    hide AllPass, Batch, Neighbours;
    forall p | 0 <= p < |after| && after[p].Some? ensures after[p].value.End() <= MAX_UINT64 {
      PassingFits(before, after, changed, p);
    }
    forall a, b | Neighbours(after, a, b)
      ensures 0 <= a < b < |after| && after[a].Some? && after[b].Some?
      ensures after[a].value.End() <= after[b].value.base
    {
      NeighboursBasics(after, a, b);
      PassingNeighbours(before, after, changed, a, b);
    }
    forall p, q | 0 <= p < q < |after| && after[p].Some? && after[q].Some?
      ensures after[p].value.End() <= after[q].value.base
    {
      NeighboursSuffice(after, p, q);
    }
  }

  lemma NeighboursBasics(slots: Slots, p: int, q: int)
    requires Neighbours(slots, p, q)
    ensures 0 <= p < q < |slots| && slots[p].Some? && slots[q].Some?
  {
  }

  lemma DisjointPasses(slots: Slots, p: int)
    requires SlotsDisjoint(slots) && 0 <= p < |slots|
    ensures Passes(slots, p)
  {
  }

  /** The batch's checks pass exactly when the resulting set is free of overflow and overlap. */
  lemma BatchDisjoint(before: Slots, after: Slots, changed: set<int>)
    requires Ordered(after) && SlotsDisjoint(before) && Batch(before, after, changed)
    ensures AllPass(after, changed) <==> SlotsDisjoint(after)
  {
    if AllPass(after, changed) { PassingIsDisjoint(before, after, changed); }
    hide SlotsDisjoint, Passes;
    if SlotsDisjoint(after) {
      forall p | p in changed ensures Passes(after, p) {
        DisjointPasses(after, p);
      }
    }
  }

  /* ---------- Slots against the reference map ---------- */

  /** The occupied slots hold exactly the images of the reference, each found through its ID. */
  ghost predicate Indexed(slots: Slots, bases: seq<UInt64>, active: map<UInt64, int>, live: Live) {
    && |slots| == |bases|
    && active.Keys == live.Keys
    && (forall id :: id in active ==> 0 <= active[id] < |slots| && slots[active[id]] == Some(live[id]) && live[id].id == id)
    && (forall p :: 0 <= p < |slots| && slots[p].Some? ==>
          var im := slots[p].value;
          im.base == bases[p] && im.size != 0 && im.id in active && active[im.id] == p)
  }

  ghost predicate BasesAscend(bases: seq<UInt64>) {
    forall i, j :: 0 <= i < j < |bases| ==> bases[i] <= bases[j]
  }

  lemma IndexedOrdered(slots: Slots, bases: seq<UInt64>, active: map<UInt64, int>, live: Live)
    requires Indexed(slots, bases, active, live) && BasesAscend(bases)
    ensures Ordered(slots)
  {
  }

  lemma IndexedSlot(slots: Slots, bases: seq<UInt64>, active: map<UInt64, int>, live: Live, p: int)
    requires Indexed(slots, bases, active, live) && 0 <= p < |slots| && slots[p].Some?
    ensures var im := slots[p].value; im.id in live && live[im.id] == im
  {
    var im := slots[p].value;
    assert im.id in active;
  }

  lemma SlotsToLive(slots: Slots, bases: seq<UInt64>, active: map<UInt64, int>, live: Live)
    requires Indexed(slots, bases, active, live) && SlotsDisjoint(slots)
    ensures Disjoint(live)
  {
    forall a | a in live ensures live[a].End() <= MAX_UINT64 {
      assert slots[active[a]] == Some(live[a]);
    }
    forall a, b | a in live && b in live && a != b ensures Apart(live[a], live[b]) {
      assert slots[active[a]] == Some(live[a]) && slots[active[b]] == Some(live[b]);
    }
  }

  lemma LiveToSlots(slots: Slots, bases: seq<UInt64>, active: map<UInt64, int>, live: Live)
    requires Indexed(slots, bases, active, live) && Ordered(slots) && Disjoint(live)
    ensures SlotsDisjoint(slots)
  {
    forall p | 0 <= p < |slots| && slots[p].Some? ensures slots[p].value.End() <= MAX_UINT64 {
      IndexedSlot(slots, bases, active, live, p);
    }
    forall p, q | 0 <= p < q < |slots| && slots[p].Some? && slots[q].Some?
      ensures slots[p].value.End() <= slots[q].value.base
    {
      IndexedSlot(slots, bases, active, live, p);
      IndexedSlot(slots, bases, active, live, q);
      assert slots[p].value.id != slots[q].value.id;
      assert Apart(live[slots[p].value.id], live[slots[q].value.id]);
    }
  }

  /** Vacating the slot of an ID is removing it from the map. */
  lemma IndexedRemove(slots: Slots, bases: seq<UInt64>, active: map<UInt64, int>, live: Live, id: UInt64)
    requires Indexed(slots, bases, active, live) && id in active
    ensures Indexed(slots[active[id] := None], bases, active - {id}, live - {id})
  {
  }

  /** Filling a vacant slot is adding to the map. */
  lemma IndexedAdd(slots: Slots, bases: seq<UInt64>, active: map<UInt64, int>, live: Live, p: int, im: Image)
    requires Indexed(slots, bases, active, live) && 0 <= p < |slots| && slots[p].None?
    requires im.id !in active && im.base == bases[p] && im.size != 0
    ensures Indexed(slots[p := Some(im)], bases, active[im.id := p], live[im.id := im])
  {
  }
}
