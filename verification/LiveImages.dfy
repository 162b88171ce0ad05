/**
 The index of live code images (profile/live_images.go): load addresses sorted once, a binary
 indexed tree over the occupied ones, and a one-entry cache.
 */
module LiveImages {
  import opened Options
  import opened FiniteSets
  import opened Sorting
  import opened Fenwick
  import opened Words
  import opened UnwindRules
  import opened CodeImages
  import opened LiveSets

  /* ---------- Ranks of occupied slots ---------- */

  function Mark(s: Option<Image>): int {
    if s.Some? then 1 else 0
  }

  function Marks(slots: Slots): seq<int> {
    seq(|slots|, i requires 0 <= i < |slots| => Mark(slots[i]))
  }

  lemma MarksUpdate(slots: Slots, p: int, s: Option<Image>)
    requires 0 <= p < |slots|
    ensures Marks(slots[p := s]) == Marks(slots)[p := Marks(slots)[p] + (Mark(s) - Mark(slots[p]))]
    ensures Sum(Marks(slots[p := s]), 0, |slots|) == Sum(Marks(slots), 0, |slots|) + Mark(s) - Mark(slots[p])
  {
    assert Marks(slots[p := s]) == Marks(slots)[p := Mark(s)];
    SumUpdate(Marks(slots), p, Mark(s), 0, |slots|);
  }

  /** The tree counts occupied slots, and there are as many as active IDs. */
  ghost predicate Ranked(tree: seq<int>, slots: Slots, size: int) {
    TreeOk(tree, Marks(slots)) && size == Sum(Marks(slots), 0, |slots|)
  }

  lemma RankedRemove(tree: seq<int>, slots: Slots, active: map<UInt64, int>, p: int, id: UInt64)
    requires 0 <= p < |slots| && slots[p].Some? && id in active
    requires |active| == Sum(Marks(slots), 0, |slots|) && TreeOk(tree, Marks(slots[p := None]))
    ensures Ranked(tree, slots[p := None], |active - {id}|)
  {
    MarksUpdate(slots, p, None);
    assert (active - {id}).Keys == active.Keys - {id};
  }

  lemma RankedAdd(tree: seq<int>, slots: Slots, active: map<UInt64, int>, p: int, im: Image)
    requires 0 <= p < |slots| && slots[p].None? && im.id !in active
    requires |active| == Sum(Marks(slots), 0, |slots|) && TreeOk(tree, Marks(slots[p := Some(im)]))
    ensures Ranked(tree, slots[p := Some(im)], |active[im.id := p]|)
  {
    MarksUpdate(slots, p, Some(im));
    assert active[im.id := p].Keys == active.Keys + {im.id};
  }

  ghost predicate AtRank(slots: Slots, rank: int, p: int) {
    0 <= p < |slots| && Sum(Marks(slots), 0, p) < rank <= Sum(Marks(slots), 0, p + 1)
  }

  lemma RankOccupied(slots: Slots, rank: int, p: int)
    requires AtRank(slots, rank, p)
    ensures slots[p].Some? && Sum(Marks(slots), 0, p) == rank - 1
  {
    assert Marks(slots)[p] == Mark(slots[p]);
  }

  lemma {:induction false} SumVacant(slots: Slots, lo: int, hi: int)
    requires 0 <= lo <= hi <= |slots|
    ensures Sum(Marks(slots), lo, hi) >= 0
    ensures Sum(Marks(slots), lo, hi) == 0 <==> Vacant(slots, lo, hi)
    decreases hi - lo
  {
    if lo < hi { SumVacant(slots, lo, hi - 1); }
  }

  /** The last of the slots counted up to `end` is the closest one before it. */
  lemma RankBefore(slots: Slots, end: int, p: int)
    requires 0 <= end <= |slots| && AtRank(slots, Sum(Marks(slots), 0, end), p)
    ensures 0 <= p < end && slots[p].Some? && Vacant(slots, p + 1, end)
  {
    RankOccupied(slots, Sum(Marks(slots), 0, end), p);
    if p >= end {
      SumSplit(Marks(slots), 0, end, p);
      SumVacant(slots, end, p);
      assert false;
    }
    SumSplit(Marks(slots), 0, p + 1, end);
    SumVacant(slots, p + 1, end);
  }

  /** The next rank after those counted up to `start` is the closest occupied slot from there on. */
  lemma RankAfter(slots: Slots, start: int, p: int)
    requires 0 <= start <= |slots| && AtRank(slots, Sum(Marks(slots), 0, start) + 1, p)
    ensures start <= p < |slots| && slots[p].Some? && Vacant(slots, start, p)
  {
    RankOccupied(slots, Sum(Marks(slots), 0, start) + 1, p);
    if p < start {
      SumSplit(Marks(slots), 0, p + 1, start);
      SumVacant(slots, p + 1, start);
      assert false;
    }
    SumSplit(Marks(slots), 0, start, p);
    SumVacant(slots, start, p);
  }

  /* ---------- Address order of the load events ---------- */

  /** Distinct slots for the load events, each at its image's base address. */
  ghost predicate Placed(events: seq<Event>, place: seq<int>, bases: seq<UInt64>) {
    && |place| == |events|
    && (forall e :: 0 <= e < |events| && IsLoad(events[e]) ==> 0 <= place[e] < |bases| && bases[place[e]] == events[e].image.value.base)
    && (forall e, f :: 0 <= e < f < |events| && IsLoad(events[e]) && IsLoad(events[f]) ==> place[e] != place[f])
  }

  /** Slots of loads still to come are vacant. */
  ghost predicate Awaiting(events: seq<Event>, place: seq<int>, slots: Slots, cursor: int) {
    forall e :: 0 <= e < |events| && cursor <= e && IsLoad(events[e]) && e < |place| && 0 <= place[e] < |slots| ==> slots[place[e]].None?
  }

  datatype Pending = Pending(base: UInt64, event: nat)

  predicate PendingLess(a: Pending, b: Pending) {
    if a.base != b.base then a.base < b.base else a.event < b.event
  }

  ghost predicate Collected(events: seq<Event>, loads: seq<Pending>, n: int) {
    && (forall l :: l in loads ==> l.event < |events| && l.event < n && IsLoad(events[l.event]) && l.base == events[l.event].image.value.base)
    && (forall e :: 0 <= e < n && e < |events| && IsLoad(events[e]) ==> Pending(events[e].image.value.base, e) in loads)
    && Distinct(loads)
  }

  /** The load events in order of address, ties in event order. */
  method SortedLoads(events: seq<Event>) returns (loads: seq<Pending>)
    ensures Collected(events, loads, |events|)
    ensures forall i, j :: 0 <= i < j < |loads| ==> PendingLess(loads[i], loads[j])
    ensures forall i, j :: 0 <= i < j < |loads| ==> loads[i].base <= loads[j].base
  {
    loads := [];
    for i := 0 to |events|
      invariant Collected(events, loads, i)
    {
      if IsLoad(events[i]) {
        var l := Pending(events[i].image.value.base, i);
        assert l !in loads;
        loads := loads + [l];
      }
    }
    SortMembers(PendingLess, loads);
    SortDistinct(PendingLess, loads);
    SortSorted(PendingLess, loads);
    loads := Sort(PendingLess, loads);
    forall i, j | 0 <= i < j < |loads| ensures PendingLess(loads[i], loads[j]) {
      assert !PendingLess(loads[j], loads[i]) && loads[i] != loads[j];
    }
  }

  /** The slot of every load event, from the sorted loads. */
  method PlaceLoads(events: seq<Event>, loads: seq<Pending>) returns (bases: seq<UInt64>, positions: seq<int>)
    requires Collected(events, loads, |events|)
    ensures |bases| == |loads| && (forall i :: 0 <= i < |loads| ==> bases[i] == loads[i].base)
    ensures Placed(events, positions, bases)
  {
    bases := [];
    positions := seq(|events|, i => 0);
    for i := 0 to |loads|
      invariant |positions| == |events| && |bases| == i
      invariant forall j :: 0 <= j < i ==> bases[j] == loads[j].base
      invariant forall j :: 0 <= j < i ==> positions[loads[j].event] == j
    {
      bases := bases + [loads[i].base];
      assert loads[i] in loads;
      forall j | 0 <= j < i ensures loads[j].event != loads[i].event {
        SameEventSameLoad(events, loads, i, j);
      }
      positions := positions[loads[i].event := i];
    }
    PlacedByIndex(events, loads, bases, positions);
  }

  /** Addresses of all loads in order, and each load event's slot among them. */
  method AddressOrder(events: seq<Event>) returns (bases: seq<UInt64>, positions: seq<int>)
    ensures Placed(events, positions, bases) && BasesAscend(bases)
  {
    var loads := SortedLoads(events);
    bases, positions := PlaceLoads(events, loads);
  }

  method TopBitOf(n: nat) returns (topBit: int, ghost k: nat)
    ensures n >= 2 ==> IsTop(topBit, k, n)
  {
    if n < 2 { return 0, 0; }
    topBit, k := TopBit(n);
  }

  lemma SameEventSameLoad(events: seq<Event>, loads: seq<Pending>, i: int, j: int)
    requires Collected(events, loads, |events|) && 0 <= j < i < |loads|
    ensures loads[j].event != loads[i].event
  {
    assert loads[i] in loads && loads[j] in loads;
  }

  lemma PlacedByIndex(events: seq<Event>, loads: seq<Pending>, bases: seq<UInt64>, positions: seq<int>)
    requires Collected(events, loads, |events|) && |positions| == |events| && |bases| == |loads|
    requires forall j :: 0 <= j < |loads| ==> bases[j] == loads[j].base && loads[j].event < |events| && positions[loads[j].event] == j
    ensures Placed(events, positions, bases)
  {
    forall e | 0 <= e < |events| && IsLoad(events[e])
      ensures 0 <= positions[e] < |bases| && bases[positions[e]] == events[e].image.value.base
      ensures loads[positions[e]].event == e
    {
      var l := Pending(events[e].image.value.base, e);
      assert l in loads;
      var j :| 0 <= j < |loads| && loads[j] == l;
      assert positions[e] == j;
    }
  }

  /* ---------- The index ---------- */

  /** Slots, addresses and IDs agree with the reference map, and room is kept for later loads. */
  ghost predicate Describes(events: seq<Event>, place: seq<int>, cursor: int, slots: Slots, bases: seq<UInt64>,
                            index: map<UInt64, int>, live: Live)
  {
    && Indexed(slots, bases, index, live)
    && BasesAscend(bases)
    && Placed(events, place, bases)
    && Awaiting(events, place, slots, cursor)
  }

  lemma DescribesRemove(events: seq<Event>, place: seq<int>, cursor: int, slots: Slots, bases: seq<UInt64>,
                        index: map<UInt64, int>, live: Live, id: UInt64)
    requires Describes(events, place, cursor, slots, bases, index, live) && id in index
    ensures 0 <= index[id] < |slots| && slots[index[id]].Some?
    ensures Describes(events, place, cursor, slots[index[id] := None], bases, index - {id}, live - {id})
  {
    IndexedRemove(slots, bases, index, live, id);
  }

  lemma DescribesAdd(events: seq<Event>, place: seq<int>, cursor: int, slots: Slots, bases: seq<UInt64>,
                     index: map<UInt64, int>, live: Live, e: int, im: Image)
    requires Describes(events, place, cursor, slots, bases, index, live)
    requires 0 <= e < |events| && cursor <= e && IsLoad(events[e]) && events[e].image == Some(im)
    requires im.id !in index && im.size != 0
    ensures 0 <= place[e] < |slots| && slots[place[e]].None?
    ensures Describes(events, place, e + 1, slots[place[e] := Some(im)], bases, index[im.id := place[e]], live[im.id := im])
  {
    IndexedAdd(slots, bases, index, live, place[e], im);
    var slots' := slots[place[e] := Some(im)];
    forall f | 0 <= f < |events| && e + 1 <= f && IsLoad(events[f]) && 0 <= place[f] < |slots'| ensures slots'[place[f]].None? {
      assert place[e] != place[f];
    }
  }

  lemma DescribesLater(events: seq<Event>, place: seq<int>, cursor: int, later: int, slots: Slots, bases: seq<UInt64>,
                       index: map<UInt64, int>, live: Live)
    requires Describes(events, place, cursor, slots, bases, index, live) && cursor <= later
    ensures Describes(events, place, later, slots, bases, index, live)
  {
  }

  lemma DescribesEmpty(events: seq<Event>, place: seq<int>, slots: Slots, bases: seq<UInt64>)
    requires |slots| == |bases| && BasesAscend(bases) && Placed(events, place, bases)
    requires forall p :: 0 <= p < |slots| ==> slots[p].None?
    ensures Describes(events, place, 0, slots, bases, map[], map[])
    ensures Sum(Marks(slots), 0, |slots|) == 0
  {
    SumVacant(slots, 0, |slots|);
  }

  /* ---------- What checks and lookups decide ---------- */

  ghost predicate FollowsClear(slots: Slots, p: int)
    requires 0 <= p < |slots| && slots[p].Some?
  {
    forall q :: Neighbours(slots, q, p) ==> Wrap(slots[q].value.End()) <= slots[p].value.base
  }

  ghost predicate PrecedesClear(slots: Slots, p: int)
    requires 0 <= p < |slots| && slots[p].Some?
  {
    forall q :: Neighbours(slots, p, q) ==> slots[p].value.End() <= slots[q].value.base
  }

  lemma OnlyContainer(live: Live, im: Image, pc: int)
    requires im.id in live && live[im.id] == im && im.Contains(pc)
    ensures Disjoint(live) ==> forall id :: id in live && live[id].Contains(pc) ==> live[id] == im
  {
    if Disjoint(live) {
      forall id | id in live && live[id].Contains(pc) ensures live[id] == im {
        assert Apart(live[id], im) || id == im.id;
      }
    }
  }

  /** Only slots at addresses up to pc can hold an image containing it. */
  lemma SearchSpace(slots: Slots, bases: seq<UInt64>, index: map<UInt64, int>, live: Live, pc: int, end: int)
    requires Indexed(slots, bases, index, live) && 0 <= end <= |bases|
    requires forall j :: end <= j < |bases| ==> bases[j] > pc
    ensures forall id :: id in live && live[id].Contains(pc) ==> 0 <= index[id] < end && slots[index[id]] == Some(live[id])
  {
    forall id | id in live && live[id].Contains(pc) ensures 0 <= index[id] < end && slots[index[id]] == Some(live[id]) {
      assert slots[index[id]] == Some(live[id]);
    }
  }

  /** Among disjoint images, only the last one at or below pc can contain it. */
  lemma LastContains(slots: Slots, p: int, q: int, end: int, pc: int)
    requires SlotsDisjoint(slots) && 0 <= p < end <= |slots| && 0 <= q < end
    requires slots[p].Some? && slots[q].Some? && Vacant(slots, p + 1, end)
    requires slots[p].value.base <= pc && slots[q].value.Contains(pc)
    ensures p == q
  {
  }

  class Index {
    const bases: seq<UInt64>
    const images: array<Option<Image>>
    const tree: array<int>
    const positions: seq<int>
    const topBit: int
    var active: map<UInt64, int>
    var last: Option<Image>

    // The reference state. `index`, `place` and `addresses` also cover the one-load form, which
    // keeps no tables.
    ghost const events: seq<Event>
    ghost const place: seq<int>
    ghost const addresses: seq<UInt64>
    ghost const top: nat
    ghost var cursor: nat
    ghost var index: map<UInt64, int>
    ghost var live: Live

    ghost predicate Tables()
      reads this, tree, images
    {
      if images.Length >= 2 then
        && bases == addresses && positions == place && active == index
        && IsTop(topBit, top, images.Length)
        && Ranked(tree[..], images[..], |active|)
      else
        bases == [] && active == map[]
    }

    ghost predicate Valid()
      reads this, tree, images
    {
      && Describes(events, place, cursor, images[..], addresses, index, live)
      && Tables()
      && (last.Some? ==> last.value.id in live && live[last.value.id] == last.value)
    }

    constructor (events: seq<Event>)
      ensures Valid() && fresh(images) && fresh(tree)
      ensures this.events == events && cursor == 0 && live == map[]
    {
      var b, p := AddressOrder(events);
      var n := |b|;
      var bit, exponent := TopBitOf(n);
      hide Placed, BasesAscend, IsTop;
      this.events, place, addresses, top := events, p, b, exponent;
      images := new Option<Image>[n](_ => None);
      tree := new int[if n >= 2 then n + 1 else 0](_ => 0);
      active, index, live, last, cursor := map[], map[], map[], None, 0;
      bases := if n >= 2 then b else [];
      positions := if n >= 2 then p else [];
      topBit := bit;
      new;
      hide TreeOk, Sum, Marks;
      DescribesEmpty(events, place, images[..], addresses);
      EmptyTree(tree[..], images[..]);
      hide Describes, Ranked;
    }

    method SetSlot(position: int, s: Option<Image>)
      requires images.Length >= 2 && 0 <= position < images.Length
      requires TreeOk(tree[..], Marks(images[..])) && images[position].Some? != s.Some?
      modifies images, tree
      ensures images[..] == old(images[..])[position := s]
      ensures TreeOk(tree[..], Marks(images[..]))
    {
      MarksUpdate(images[..], position, s);
      Add(tree, position, if s.Some? then 1 else -1, Marks(images[..]));
      ghost var was := images[..];
      images[position] := s;
      assert images[..] == was[position := s];
    }

    /** Vacates the slot of an active ID. */
    method Remove(id: UInt64)
      requires Valid() && images.Length >= 2 && id in active && 0 <= active[id] < images.Length && last.None?
      modifies this, images, tree
      ensures Valid() && last.None?
      ensures live == old(live) - {id} && cursor == old(cursor)
      ensures id !in active
      ensures images[..] == old(images[..])[old(active)[id] := None]
    {
      hide Describes, TreeOk, Sum, IsTop, Batch;
      DescribesRemove(events, place, cursor, images[..], addresses, index, live, id);
      SetSlot(active[id], None);
      RankedRemove(tree[..], old(images[..]), active, active[id], id);
      hide Ranked, Marks;
      active := active - {id};
      index := index - {id};
      live := live - {id};
    }

    method Release(id: UInt64)
      requires Valid() && images.Length != 1 && last.None?
      modifies this, images, tree
      ensures Valid() && last.None? && cursor == old(cursor)
      ensures live == old(live) - {id}
      ensures images.Length >= 2 ==> id !in active
      ensures Batch(old(images[..]), images[..], {})
    {
      SameKeys();
      hide Describes, Ranked, IsTop, Marks;
      if id in active {
        BatchUpdate(images[..], active[id], None);
        hide Batch;
        Remove(id);
      }
    }

    /** Maps a load event's image: the reference map after loading it. */
    method Load(event: nat, image: Image) returns (position: int)
      requires Valid() && cursor <= event < |events| && IsLoad(events[event]) && events[event].image == Some(image)
      modifies this, images, tree
      ensures Valid() && cursor == event + 1
      ensures live == Loaded(old(live), image)
      ensures 0 <= position < images.Length
      ensures Batch(old(images[..]), images[..], {position})
    {
      hide Describes, Ranked, IsTop, Marks, Batch;
      SeveralLoads(event, image);
      last := None;
      if images.Length == 1 {
        position := LoadSingle(event, image);
      } else {
        position := LoadSeveral(event, image);
      }
    }

    method LoadSeveral(event: nat, image: Image) returns (position: int)
      requires Valid() && cursor <= event < |events| && IsLoad(events[event]) && events[event].image == Some(image)
      requires images.Length >= 2 && last.None?
      modifies this, images, tree
      ensures Valid() && cursor == event + 1
      ensures live == Loaded(old(live), image)
      ensures 0 <= position < images.Length
      ensures Batch(old(images[..]), images[..], {position})
    {
      hide Valid, Batch;
      SeveralLoads(event, image);
      ReplaceIsLoad(live, image);
      position := positions[event];
      ghost var before := images[..];
      Release(image.id);
      ghost var released := images[..];
      if image.size != 0 {
        Occupy(event, image);
      } else {
        Skip(event);
        BatchSame(images[..], position);
      }
      BatchThen(before, released, images[..], {}, {position});
      assert {} + {position} == {position};
    }

    ghost method Skip(event: nat)
      requires Valid() && cursor <= event
      modifies this`cursor
      ensures Valid() && cursor == event + 1
    {
      hide Describes, Ranked, IsTop;
      DescribesLater(events, place, cursor, event + 1, images[..], addresses, index, live);
      cursor := event + 1;
    }

    lemma SeveralLoads(event: nat, image: Image)
      requires Valid() && event < |events| && IsLoad(events[event])
      ensures images.Length >= 1
      ensures images.Length >= 2 ==> |positions| == |events| && 0 <= positions[event] < images.Length
    {
    }

    method LoadSingle(event: nat, image: Image) returns (position: int)
      requires Valid() && cursor <= event < |events| && IsLoad(events[event]) && events[event].image == Some(image)
      requires images.Length == 1 && last.None?
      modifies this, images
      ensures Valid() && cursor == event + 1
      ensures live == Loaded(old(live), image)
      ensures position == 0 && Batch(old(images[..]), images[..], {position})
    {
      SingleVacant(event);
      if image.size != 0 {
        DescribesAdd(events, place, cursor, images[..], addresses, index, live, event, image);
        ghost var was := images[..];
        images[0] := Some(image);
        assert images[..] == was[place[event] := Some(image)];
        index := index[image.id := place[event]];
        live := live[image.id := image];
      } else {
        DescribesLater(events, place, cursor, event + 1, images[..], addresses, index, live);
        live := live - {image.id};
      }
      cursor := event + 1;
      position := 0;
    }

    /** With a single slot, nothing is live when its load arrives. */
    lemma SingleVacant(event: nat)
      requires Valid() && images.Length == 1 && cursor <= event < |events| && IsLoad(events[event])
      ensures place[event] == 0 && live == map[] && index == map[]
    {
      SameKeys();
      assert images[..][place[event]].None?;
      assert live.Keys == {} && index.Keys == {};
    }

    method Occupy(event: nat, image: Image)
      requires Valid() && cursor <= event < |events| && IsLoad(events[event]) && events[event].image == Some(image)
      requires images.Length >= 2 && image.id !in active && image.size != 0 && last.None?
      modifies this, images, tree
      ensures Valid() && cursor == event + 1 && last.None?
      ensures live == old(live)[image.id := image]
      ensures Batch(old(images[..]), images[..], {positions[event]})
    {
      hide Describes, TreeOk, Sum, IsTop, Batch;
      SeveralLoads(event, image);
      DescribesAdd(events, place, cursor, images[..], addresses, index, live, event, image);
      SetSlot(positions[event], Some(image));
      RankedAdd(tree[..], old(images[..]), active, positions[event], image);
      BatchUpdate(old(images[..]), positions[event], Some(image));
      hide Ranked, Marks;
      active := active[image.id := positions[event]];
      index := active;
      live := live[image.id := image];
      cursor := event + 1;
    }

    /** Unmaps an ID: the reference map without it. */
    method Retire(id: UInt64)
      requires Valid()
      modifies this, images, tree
      ensures Valid() && cursor == old(cursor)
      ensures live == old(live) - {id}
      ensures Batch(old(images[..]), images[..], {})
    {
      hide Describes, Ranked, IsTop, Marks, Batch;
      last := None;
      if images.Length == 1 {
        RetireSingle(id);
      } else {
        Release(id);
      }
    }

    lemma SameKeys()
      requires Valid()
      ensures index.Keys == live.Keys
      ensures forall id :: id in index ==> 0 <= index[id] < images.Length
      ensures images.Length == 0 ==> index == map[]
      ensures images.Length == 1 ==> forall id :: id in live ==> images[0] == Some(live[id]) && live[id].id == id && index[id] == 0
    {
      if images.Length == 0 { assert index.Keys == {}; }
      if images.Length == 1 {
        forall id | id in live ensures images[0] == Some(live[id]) && live[id].id == id && index[id] == 0 {
          assert images[..][index[id]] == Some(live[id]);
        }
      }
    }

    method RetireSingle(id: UInt64)
      requires Valid() && images.Length == 1 && last.None?
      modifies this, images
      ensures Valid() && cursor == old(cursor)
      ensures live == old(live) - {id}
      ensures Batch(old(images[..]), images[..], {})
    {
      SameKeys();
      if images[0].Some? && images[0].value.id == id {
        assert images[..][0].Some?;
        DescribesRemove(events, place, cursor, images[..], addresses, index, live, id);
        ghost var was := images[..];
        images[0] := None;
        assert images[..] == was[index[id] := None];
        index := index - {id};
        live := live - {id};
      }
    }

    /** How many slots below `end` are occupied. */
    method CountTo(end: int) returns (n: int)
      requires Valid() && images.Length >= 2 && 0 <= end <= images.Length
      ensures n == Sum(Marks(images[..]), 0, end) && 0 <= n <= |active|
      ensures n == 0 ==> Vacant(images[..], 0, end)
      ensures n == |active| ==> Vacant(images[..], end, images.Length)
    {
      hide Describes, IsTop;
      ghost var slots := images[..];
      n := Count(tree, end, Marks(slots));
      hide TreeOk;
      SumVacant(slots, 0, end);
      SumSplit(Marks(slots), 0, end, |slots|);
      SumVacant(slots, end, |slots|);
    }

    /** The occupied slot at a rank, found by descending the tree. */
    method Select(rank: int) returns (p: int)
      requires Valid() && images.Length >= 2 && 1 <= rank <= |active|
      ensures AtRank(images[..], rank, p)
    {
      hide Describes;
      forall i | 0 <= i < images.Length ensures Marks(images[..])[i] >= 0 {
      }
      p := SelectRank(tree, topBit, rank, Marks(images[..]), top);
    }

    method CheckBefore(position: int) returns (ok: bool)
      requires Valid() && images.Length >= 2 && 0 <= position < images.Length && images[position].Some?
      ensures ok <==> FollowsClear(images[..], position)
    {
      hide Valid, AtRank, Sum, Marks;
      var before := CountTo(position);
      if before == 0 { return true; }
      var p := Select(before);
      RankBefore(images[..], position, p);
      ok := Wrap(images[p].value.End()) <= images[position].value.base;
    }

    method CheckAfter(position: int) returns (ok: bool)
      requires Valid() && images.Length >= 2 && 0 <= position < images.Length && images[position].Some?
      ensures ok <==> PrecedesClear(images[..], position)
    {
      hide Valid, AtRank, Sum, Marks;
      var through := CountTo(position + 1);
      if through >= |active| { return true; }
      var q := Select(through + 1);
      RankAfter(images[..], position + 1, q);
      ok := images[position].value.End() <= images[q].value.base;
    }

    /** The neighbour and overflow check of one changed position. */
    method CheckLoad(position: int) returns (ok: bool)
      requires Valid() && 0 <= position < images.Length
      ensures ok <==> Passes(images[..], position)
    {
      hide Describes, Ranked, IsTop;
      if images[position].None? { return true; }
      if images[position].value.base > MAX_UINT64 - images[position].value.size { return false; }
      if images.Length == 1 { return true; }
      ok := CheckBefore(position);
      if !ok { return; }
      ok := CheckAfter(position);
    }

    /** On a disjoint set, the only candidate that may contain a program counter. */
    method Lookup(pc: UInt64) returns (r: Option<Image>)
      requires Valid()
      modifies this`last
      ensures Valid()
      ensures r.Some? ==> r.value.id in live && live[r.value.id] == r.value && r.value.base <= pc
      ensures Disjoint(live) ==> forall id :: id in live && live[id].Contains(pc) ==> r == Some(live[id])
    {
      if last.Some? && pc >= last.value.base && pc - last.value.base < last.value.size {
        OnlyContainer(live, last.value, pc);
        return last;
      }
      if images.Length == 1 {
        SameKeys();
        if images[0].Some? && pc >= images[0].value.base {
          IndexedSlot(images[..], addresses, index, live, 0);
          last := images[0];
          return last;
        }
        return None;
      }
      r := Search(pc);
      if r.Some? { last := r; }
    }

    method Search(pc: UInt64) returns (r: Option<Image>)
      requires Valid() && images.Length != 1
      ensures r.Some? ==> r.value.id in live && live[r.value.id] == r.value && r.value.base <= pc
      ensures Disjoint(live) ==> forall id :: id in live && live[id].Contains(pc) ==> r == Some(live[id])
    {
      SameKeys();
      if images.Length == 0 { return None; }
      var end := FirstAbove(bases, pc);
      SearchSpace(images[..], addresses, index, live, pc, end);
      var p := Preceding(end);
      if p.None? { return None; }
      assert addresses[p.value] <= pc;
      hide Tables;
      IndexedSlot(images[..], addresses, index, live, p.value);
      IndexedOrdered(images[..], addresses, index, live);
      hide Vacant;
      if Disjoint(live) {
        LiveToSlots(images[..], addresses, index, live);
        forall id | id in live && live[id].Contains(pc) ensures images[p.value] == Some(live[id]) {
          LastContains(images[..], p.value, index[id], end, pc);
        }
      }
      r := images[p.value];
    }

    /** The closest occupied slot below `end`. */
    method Preceding(end: int) returns (p: Option<int>)
      requires Valid() && images.Length >= 2 && 0 <= end <= images.Length
      ensures p.None? ==> Vacant(images[..], 0, end)
      ensures p.Some? ==> 0 <= p.value < end && images[p.value].Some? && Vacant(images[..], p.value + 1, end)
    {
      hide Valid, AtRank, Sum, Marks;
      var rank := CountTo(end);
      if rank == 0 { return None; }
      var q := Select(rank);
      RankBefore(images[..], end, q);
      p := Some(q);
    }
  }

  lemma EmptyTree(tree: seq<int>, slots: Slots)
    requires forall i :: 0 <= i < |tree| ==> tree[i] == 0
    requires forall p :: 0 <= p < |slots| ==> slots[p].None?
    ensures |tree| == |slots| + 1 ==> Ranked(tree, slots, 0)
  {
    forall i | 1 <= i <= |slots| ensures Sum(Marks(slots), i - LowBit(i), i) == 0 {
      SumVacant(slots, i - LowBit(i), i);
    }
    SumVacant(slots, 0, |slots|);
  }
}
