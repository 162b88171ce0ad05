/**
 The single-identity checker for straight-line transfer regions (regalloccheck.State).  Each
 byte has at most one identity; reading the cells as facts, every admitted effect acts as the
 plain-set transformer does.
 */
module StraightLine {
  import opened Transfers
  import opened Facts

  /** A symbolic byte; value 0 is unknown. */
  datatype Cell = Cell(value: nat, byte: nat)

  const UNKNOWN := Cell(0, 0)

  type Cells = map<Location, Cell>

  function Lookup(cells: Cells, at: Location): Cell {
    if at in cells then cells[at] else UNKNOWN
  }

  /** What the cells claim, in the vocabulary of the flow checker. */
  function FactsOf(cells: Cells): set<Fact> {
    set at | at in cells && cells[at].value != 0 :: Fact(at, Symbol(cells[at].value, cells[at].byte))
  }

  /** Stores symbolic bytes one after the other. */
  function Stored(cells: Cells, loc: Location, v: seq<Cell>): Cells {
    if v == [] then cells else Stored(cells, loc, v[..|v| - 1])[loc.Next(|v| - 1) := v[|v| - 1]]
  }

  function Loaded(cells: Cells, loc: Location, size: nat): seq<Cell> {
    seq(size, i requires 0 <= i < size => Lookup(cells, loc.Next(i)))
  }

  function Blank(size: nat): seq<Cell> {
    seq(size, _ => UNKNOWN)
  }

  lemma {:induction false} StoredLookup(cells: Cells, loc: Location, v: seq<Cell>, size: nat, at: Location)
    requires ValidCarrier(loc, size, false) && |v| <= size
    ensures Lookup(Stored(cells, loc, v), at) ==
            if loc.Covers(|v|, at) then v[loc.Offset(at)] else Lookup(cells, at)
  {
    if v != [] {
      var n := |v| - 1;
      StoredLookup(cells, loc, v[..n], size, at);
      CarrierStep(loc, size, n);
      CarrierBytes(loc, size, at);
    }
  }

  lemma FactLookup(cells: Cells, f: Fact)
    ensures f in FactsOf(cells) <==> f.sym.id != 0 && Lookup(cells, f.loc) == Cell(f.sym.id, f.sym.part)
  {
  }

  /** No identity is newer than `last`. */
  ghost predicate Within(cells: Cells, last: nat) {
    forall at :: at in cells ==> cells[at].value <= last
  }

  lemma {:induction false} StoredWithin(cells: Cells, loc: Location, v: seq<Cell>, last: nat)
    requires Within(cells, last) && forall i :: 0 <= i < |v| ==> v[i].value <= last
    ensures Within(Stored(cells, loc, v), last)
  {
    if v != [] { StoredWithin(cells, loc, v[..|v| - 1], last); }
  }

  class Counter {
    var last: nat
    constructor () ensures last == 0 { last := 0; }
  }

  class State {
    var cells: Cells
    var next: Counter?

    /** The newest identity of the shared counter. */
    ghost function Last(): nat
      reads this, next
    {
      if next == null then 0 else next.last
    }

    /** No identity in the cells is newer than the shared counter. */
    ghost predicate Valid()
      reads this, next
    {
      Within(cells, Last())
    }

    constructor ()
      ensures Valid() && cells == map[] && next == null
    {
      cells, next := map[], null;
    }

    /** A new identity: no state that shares the counter has seen it. */
    method Fresh(size: nat) returns (v: seq<Cell>)
      requires Valid()
      modifies this, next
      ensures Valid() && cells == old(cells)
      ensures forall other: State | allocated(other) && old(allocated(other)) && other != this ::
        next == old(next) && other.next == next && old(other.Valid()) ==>
          other.Valid() && forall f :: f in FactsOf(other.cells) ==> f.sym.id != next.last
      ensures next != null && (next == old(next) || fresh(next))
      ensures next.last == (if old(next) == null then 0 else old(next.last)) + 1
      ensures |v| == size && forall i :: 0 <= i < size ==> v[i] == Cell(next.last, i)
      ensures forall f :: f in FactsOf(cells) ==> f.sym.id != next.last
    {
      if next == null {
        next := new Counter();
      }
      next.last := next.last + 1;
      var id := next.last;
      v := seq(size, i requires 0 <= i => Cell(id, i));
    }

    method Put(loc: Location, v: seq<Cell>)
      modifies this
      ensures cells == Stored(old(cells), loc, v) && next == old(next)
      ensures old(Valid()) && (forall i :: 0 <= i < |v| ==> v[i].value <= Last()) ==> Valid()
    {
      if Valid() && forall i :: 0 <= i < |v| ==> v[i].value <= Last() { StoredWithin(cells, loc, v, Last()); }
      for i := 0 to |v|
        invariant cells == Stored(old(cells), loc, v[..i]) && next == old(next)
      {
        cells := cells[loc.Next(i) := v[i]];
        assert v[..i + 1][..i] == v[..i];
      }
      assert v[..|v|] == v;
    }

    method Read(loc: Location, size: nat) returns (v: seq<Cell>)
      ensures |v| == size && forall i :: 0 <= i < size ==> v[i] == Lookup(cells, loc.Next(i))
    {
      v := Loaded(cells, loc, size);
    }

    /** One emitted effect. On facts it is the flow checker's transformer. */
    method Apply(e: Effect)
      requires e.size >= 0
      modifies this
      ensures next == old(next) && (old(Valid()) ==> Valid())
      ensures cells == Applied(old(cells), e)
      ensures EffectValid(e) && Known(FactsOf(old(cells))) ==> FactsOf(cells) == AfterEffect(FactsOf(old(cells)), e)
    {
      hide AfterEffect, FactsOf, Stored, Erased, EffectValid, Known, Within;
      ghost var before := cells;
      match e.kind {
        case Copy => CopyBytes(e);
        case Swap => SwapBytes(e);
        case Kill =>
          Erase(e.dst, e.size);
        case Call =>
          DropRegisters();
        case Read =>
          if EffectValid(e) && Known(FactsOf(before)) { AppliedFacts(before, e); }
          return;
      }
      if e.clearTo > e.size { Put(e.dst.Next(e.size), Blank(e.clearTo - e.size)); }
      assert cells == Applied(before, e);
      if old(Valid()) { AppliedWithin(before, e, Last()); }
      if EffectValid(e) && Known(FactsOf(before)) { AppliedFacts(before, e); }
    }

    method CopyBytes(e: Effect)
      requires e.size >= 0
      modifies this
      ensures next == old(next)
      ensures cells == Extended(Stored(old(cells), e.dst, Loaded(old(cells), e.src, e.size)), e.dst, e.size)
    {
      hide Stored, Within;
      ghost var before := cells;
      var v := Read(e.src, e.size);
      assert v == Loaded(before, e.src, e.size);
      Put(e.dst, v);
      if ZeroExtends(e.dst, e.size) { Put(e.dst.Next(4), Blank(4)); }
    }

    method SwapBytes(e: Effect)
      requires e.size >= 0
      modifies this
      ensures next == old(next)
      ensures cells ==
        var swapped := Stored(Stored(old(cells), e.dst, Loaded(old(cells), e.src, e.size)), e.src, Loaded(old(cells), e.dst, e.size));
        Extended(Extended(swapped, e.dst, e.size), e.src, e.size)
    {
      hide Stored, Within;
      ghost var before := cells;
      var a := Read(e.dst, e.size);
      var b := Read(e.src, e.size);
      assert a == Loaded(before, e.dst, e.size) && b == Loaded(before, e.src, e.size);
      Put(e.dst, b);
      Put(e.src, a);
      if e.size == 4 {
        if e.dst.bank.GP? { Put(e.dst.Next(4), Blank(4)); }
        if e.src.bank.GP? { Put(e.src.Next(4), Blank(4)); }
      }
    }

    method Erase(loc: Location, size: nat)
      modifies this
      ensures cells == Erased(old(cells), loc, size) && next == old(next) && (old(Valid()) ==> Valid())
    {
      for i := 0 to size
        invariant cells == Erased(old(cells), loc, i) && next == old(next) && (old(Valid()) ==> Valid())
      {
        cells := cells - {loc.Next(i)};
      }
    }

    method DropRegisters()
      modifies this
      ensures cells == (map at | at in old(cells) && at.bank.Frame? :: old(cells)[at]) && next == old(next)
      ensures old(Valid()) ==> Valid()
    {
      var todo := cells.Keys;
      while todo != {}
        invariant next == old(next) && todo <= old(cells).Keys
        invariant cells == map at | at in old(cells) && (at.bank.Frame? || at in todo) :: old(cells)[at]
        decreases todo
      {
        var at :| at in todo;
        if !at.bank.Frame? { cells := cells - {at}; }
        todo := todo - {at};
      }
    }

    /** A branch copy that shares the identity counter, so that later identities stay distinct. */
    method Clone() returns (out: State)
      requires Valid()
      modifies this
      ensures fresh(out) && out.cells == cells == old(cells) && out.next == next && next != null
      ensures next == old(next) || (old(next) == null && fresh(next))
      ensures Valid() && out.Valid()
    {
      if next == null {
        next := new Counter();
      }
      out := new State();
      out.next := next;
      out.cells := cells;
    }

    /** Keeps exactly the facts that hold in both states; only related states may meet. */
    method Meet(other: State) returns (ok: bool)
      modifies this
      ensures ok <==> old(next) == old(other.next)
      ensures ok ==> FactsOf(cells) == FactsOf(old(cells)) * FactsOf(old(other.cells))
      ensures !ok ==> cells == old(cells)
      ensures next == old(next) && (old(Valid()) ==> Valid())
    {
      ok := next == other.next;
      if !ok { return; }
      ghost var theirs := other.cells;
      var todo := cells.Keys;
      while todo != {}
        invariant next == old(next) && todo <= old(cells).Keys && other.cells == if other == this then cells else theirs
        invariant cells == map at | at in old(cells) && (at in todo || Lookup(theirs, at) == old(cells)[at]) :: old(cells)[at]
        decreases todo
      {
        var at :| at in todo;
        if Lookup(other.cells, at) != cells[at] { cells := cells - {at}; }
        todo := todo - {at};
      }
      forall f ensures f in FactsOf(cells) <==> f in FactsOf(old(cells)) && f in FactsOf(theirs) {
        FactLookup(cells, f);
        FactLookup(old(cells), f);
        FactLookup(theirs, f);
      }
    }

    /** Accepts exactly when every wanted byte is known and present. */
    method Expect(loc: Location, want: seq<Cell>) returns (ok: bool)
      ensures ok <==> forall i :: 0 <= i < |want| ==>
                want[i].value != 0 && Fact(loc.Next(i), Symbol(want[i].value, want[i].byte)) in FactsOf(cells)
    {
      for i := 0 to |want|
        invariant forall j :: 0 <= j < i ==>
                    want[j].value != 0 && Fact(loc.Next(j), Symbol(want[j].value, want[j].byte)) in FactsOf(cells)
      {
        FactLookup(cells, Fact(loc.Next(i), Symbol(want[i].value, want[i].byte)));
        if want[i].value == 0 || Lookup(cells, loc.Next(i)) != want[i] { return false; }
      }
      ok := true;
    }
  }

  function Erased(cells: Cells, loc: Location, size: nat): Cells {
    if size == 0 then cells else Erased(cells, loc, size - 1) - {loc.Next(size - 1)}
  }

  lemma {:induction false} ErasedLookup(cells: Cells, loc: Location, n: nat, size: nat, at: Location)
    requires ValidCarrier(loc, size, false) && n <= size
    ensures Lookup(Erased(cells, loc, n), at) == if loc.Covers(n, at) then UNKNOWN else Lookup(cells, at)
  {
    if n > 0 {
      ErasedLookup(cells, loc, n - 1, size, at);
      CarrierStep(loc, size, n - 1);
      CarrierBytes(loc, size, at);
    }
  }

  function Extended(cells: Cells, loc: Location, size: int): Cells {
    if ZeroExtends(loc, size) then Stored(cells, loc.Next(4), Blank(4)) else cells
  }

  function Tail(cells: Cells, e: Effect): Cells
    requires e.size >= 0
  {
    if e.clearTo > e.size then Stored(cells, e.dst.Next(e.size), Blank(e.clearTo - e.size)) else cells
  }

  function Applied(cells: Cells, e: Effect): Cells
    requires e.size >= 0
  {
    match e.kind
    case Copy => Tail(Extended(Stored(cells, e.dst, Loaded(cells, e.src, e.size)), e.dst, e.size), e)
    case Swap =>
      Tail(Extended(Extended(Stored(Stored(cells, e.dst, Loaded(cells, e.src, e.size)), e.src, Loaded(cells, e.dst, e.size)),
                             e.dst, e.size), e.src, e.size), e)
    case Kill => Tail(Erased(cells, e.dst, e.size), e)
    case Call => Tail(map at | at in cells && at.bank.Frame? :: cells[at], e)
    case Read => cells
  }

  lemma {:induction false} ErasedWithin(cells: Cells, loc: Location, size: nat, last: nat)
    requires Within(cells, last)
    ensures Within(Erased(cells, loc, size), last)
  {
    if size > 0 { ErasedWithin(cells, loc, size - 1, last); }
  }

  lemma TailWithin(cells: Cells, e: Effect, last: nat)
    requires Within(cells, last) && e.size >= 0
    ensures Within(Tail(cells, e), last)
  {
    if e.clearTo > e.size { StoredWithin(cells, e.dst.Next(e.size), Blank(e.clearTo - e.size), last); }
  }

  lemma ExtendedWithin(cells: Cells, loc: Location, size: int, last: nat)
    requires Within(cells, last)
    ensures Within(Extended(cells, loc, size), last)
  {
    StoredWithin(cells, loc.Next(4), Blank(4), last);
  }

  /** No effect makes up an identity. */
  lemma AppliedWithin(cells: Cells, e: Effect, last: nat)
    requires Within(cells, last) && e.size >= 0
    ensures Within(Applied(cells, e), last)
  {
    hide Stored, Erased, Tail, Extended;
    var from, to := Loaded(cells, e.src, e.size), Loaded(cells, e.dst, e.size);
    match e.kind
    case Copy =>
      var c := Stored(cells, e.dst, from);
      StoredWithin(cells, e.dst, from, last);
      ExtendedWithin(c, e.dst, e.size, last);
      TailWithin(Extended(c, e.dst, e.size), e, last);
    case Swap =>
      var c := Stored(cells, e.dst, from);
      StoredWithin(cells, e.dst, from, last);
      StoredWithin(c, e.src, to, last);
      ExtendedWithin(Stored(c, e.src, to), e.dst, e.size, last);
      ExtendedWithin(Extended(Stored(c, e.src, to), e.dst, e.size), e.src, e.size, last);
      TailWithin(Extended(Extended(Stored(c, e.src, to), e.dst, e.size), e.src, e.size), e, last);
    case Kill =>
      ErasedWithin(cells, e.dst, e.size, last);
      TailWithin(Erased(cells, e.dst, e.size), e, last);
    case Call =>
      TailWithin(map at | at in cells && at.bank.Frame? :: cells[at], e, last);
    case Read =>
  }

  lemma ExtendedLookup(cells: Cells, loc: Location, size: nat, at: Location)
    requires ValidCarrier(loc, size, false) && (ZeroExtends(loc, size) ==> loc.byte == 0)
    ensures Lookup(Extended(cells, loc, size), at) ==
            if ZeroExtends(loc, size) && loc.Next(4).Covers(4, at) then UNKNOWN else Lookup(cells, at)
  {
    if ZeroExtends(loc, size) { StoredLookup(cells, loc.Next(4), Blank(4), 4, at); }
  }

  lemma TailLookup(cells: Cells, e: Effect, at: Location)
    requires e.size >= 0 && (e.clearTo > e.size ==> ValidCarrier(e.dst.Next(e.size), e.clearTo - e.size, false))
    ensures Lookup(Tail(cells, e), at) ==
            if e.clearTo > e.size && e.dst.Next(e.size).Covers(e.clearTo - e.size, at) then UNKNOWN else Lookup(cells, at)
  {
    if e.clearTo > e.size { StoredLookup(cells, e.dst.Next(e.size), Blank(e.clearTo - e.size), e.clearTo - e.size, at); }
  }

  lemma CopyLookup(cells: Cells, e: Effect, at: Location)
    requires EffectValid(e) && e.kind.Copy?
    ensures Lookup(Applied(cells, e), at) ==
            if e.clearTo > e.size && e.dst.Next(e.size).Covers(e.clearTo - e.size, at) then UNKNOWN
            else if ZeroExtends(e.dst, e.size) && e.dst.Next(4).Covers(4, at) then UNKNOWN
            else if e.dst.Covers(e.size, at) then Lookup(cells, e.src.Next(e.dst.Offset(at)))
            else Lookup(cells, at)
  {
    hide Stored;
    var c1 := Stored(cells, e.dst, Loaded(cells, e.src, e.size));
    StoredLookup(cells, e.dst, Loaded(cells, e.src, e.size), e.size, at);
    ExtendedLookup(c1, e.dst, e.size, at);
    TailLookup(Extended(c1, e.dst, e.size), e, at);
  }

  lemma SwapLookup(cells: Cells, e: Effect, at: Location)
    requires EffectValid(e) && e.kind.Swap?
    ensures Lookup(Applied(cells, e), at) ==
            if ZeroExtends(e.src, e.size) && e.src.Next(4).Covers(4, at) then UNKNOWN
            else if ZeroExtends(e.dst, e.size) && e.dst.Next(4).Covers(4, at) then UNKNOWN
            else if e.src.Covers(e.size, at) then Lookup(cells, e.dst.Next(e.src.Offset(at)))
            else if e.dst.Covers(e.size, at) then Lookup(cells, e.src.Next(e.dst.Offset(at)))
            else Lookup(cells, at)
  {
    hide Stored;
    var c1 := Stored(cells, e.dst, Loaded(cells, e.src, e.size));
    var c2 := Stored(c1, e.src, Loaded(cells, e.dst, e.size));
    StoredLookup(cells, e.dst, Loaded(cells, e.src, e.size), e.size, at);
    StoredLookup(c1, e.src, Loaded(cells, e.dst, e.size), e.size, at);
    ExtendedLookup(c2, e.dst, e.size, at);
    ExtendedLookup(Extended(c2, e.dst, e.size), e.src, e.size, at);
  }

  lemma CopyFact(cells: Cells, e: Effect, f: Fact)
    requires EffectValid(e) && e.kind.Copy? && Known(FactsOf(cells))
    ensures f in FactsOf(Applied(cells, e)) <==> Holds(EffectOrigin(e, f), FactsOf(cells))
  {
    hide Applied, FactsOf, Known;
    FactLookup(Applied(cells, e), f);
    CopyLookup(cells, e, f.loc);
    var o := EffectOrigin(e, f);
    if o.From? { FactLookup(cells, o.fact); }
    UnknownByte(cells, e.src.Next(Max(0, e.dst.Offset(f.loc))));
  }

  lemma SwapFact(cells: Cells, e: Effect, f: Fact)
    requires EffectValid(e) && e.kind.Swap? && Known(FactsOf(cells))
    ensures f in FactsOf(Applied(cells, e)) <==> Holds(EffectOrigin(e, f), FactsOf(cells))
  {
    hide Applied, FactsOf, Known;
    FactLookup(Applied(cells, e), f);
    SwapLookup(cells, e, f.loc);
    var o := EffectOrigin(e, f);
    if o.From? { FactLookup(cells, o.fact); }
  }

  lemma KillLookup(cells: Cells, e: Effect, at: Location)
    requires EffectValid(e) && e.kind.Kill?
    ensures Lookup(Applied(cells, e), at) ==
            if e.dst.Covers(e.size, at) then UNKNOWN
            else if e.clearTo > e.size && e.dst.Next(e.size).Covers(e.clearTo - e.size, at) then UNKNOWN
            else Lookup(cells, at)
  {
    hide Erased, Tail;
    ErasedLookup(cells, e.dst, e.size, e.size, at);
    TailLookup(Erased(cells, e.dst, e.size), e, at);
  }

  lemma KillFact(cells: Cells, e: Effect, f: Fact)
    requires EffectValid(e) && e.kind.Kill?
    ensures f in FactsOf(Applied(cells, e)) <==> Holds(EffectOrigin(e, f), FactsOf(cells))
  {
    hide FactsOf, Applied;
    FactLookup(Applied(cells, e), f);
    FactLookup(cells, f);
    KillLookup(cells, e, f.loc);
  }

  /** A fact holds after the effect exactly when its origin held before. */
  lemma AppliedFact(cells: Cells, e: Effect, f: Fact)
    requires EffectValid(e) && Known(FactsOf(cells))
    ensures f in FactsOf(Applied(cells, e)) <==> Holds(EffectOrigin(e, f), FactsOf(cells))
  {
    match e.kind
    case Copy => CopyFact(cells, e, f);
    case Swap => SwapFact(cells, e, f);
    case Kill => KillFact(cells, e, f);
    case Call =>
      FactLookup(Applied(cells, e), f);
      FactLookup(cells, f);
    case Read =>
  }

  lemma UnknownByte(cells: Cells, at: Location)
    requires Known(FactsOf(cells))
    ensures at.bank.Unknown? ==> Lookup(cells, at).value == 0
  {
    FactLookup(cells, Fact(at, Symbol(Lookup(cells, at).value, Lookup(cells, at).byte)));
  }

  /** State.Apply and the flow checker's effect commute with reading cells as facts. */
  lemma AppliedFacts(cells: Cells, e: Effect)
    requires EffectValid(e) && Known(FactsOf(cells))
    ensures FactsOf(Applied(cells, e)) == AfterEffect(FactsOf(cells), e)
    ensures Known(FactsOf(Applied(cells, e)))
  {
    forall f ensures f in FactsOf(Applied(cells, e)) <==> f in AfterEffect(FactsOf(cells), e) {
      AppliedFact(cells, e, f);
      EffectOriginCorrect(FactsOf(cells), e, f);
    }
    AfterEffectKnown(FactsOf(cells), e);
  }
}
