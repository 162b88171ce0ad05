/**
 The indexed fact set of the flow checker.  A `FlowImage` keeps a forward map of cells, a
 reverse index of per-value location bitmasks, a register set and a fact count; all describe
 one plain set of facts, `facts`, and every operation refines its plain-set counterpart.
 A `FlowBudget` meters work and retained storage; running out ends the analysis, which the
 methods report as `ok == false`.
 */
module FlowImages {
  import opened Transfers
  import opened Facts
  import Bits

  datatype Limits = Limits(blocks: int, values: int, operations: int, facts: int, work: int)

  const DEFAULT_LIMITS := Limits(4096, 65536, 262144, 1048576, 33554432)

  class FlowBudget {
    const limits: Limits
    var work: int
    var facts: int

    ghost predicate Valid()
      reads this
    {
      0 <= work <= limits.work && 0 <= facts <= limits.facts && facts <= work
    }

    /** No storage credit is left, or less work than the storage held might cost to scan. */
    ghost predicate Exhausted()
      reads this
    {
      work + facts >= limits.work || facts == limits.facts
    }

    constructor (limits: Limits)
      requires limits.work >= 0 && limits.facts >= 0
      ensures Valid() && this.limits == limits && work == 0 && facts == 0
    {
      this.limits := limits;
      work, facts := 0, 0;
    }

    method Charge(n: nat) returns (ok: bool)
      requires Valid()
      modifies this`work
      ensures Valid()
      ensures ok <==> old(work) + n <= limits.work
      ensures work == if ok then old(work) + n else old(work)
    {
      ok := n <= limits.work - work;
      if ok { work := work + n; }
    }

    method AddFact() returns (ok: bool)
      requires Valid()
      modifies this
      ensures Valid() && old(work) <= work <= old(work) + 1
      ensures ok <==> old(work) < limits.work && old(facts) < limits.facts
      ensures ok ==> facts == old(facts) + 1
      ensures !ok ==> facts == old(facts) && Exhausted()
    {
      ok := Charge(1);
      if ok {
        if facts == limits.facts { return false; }
        facts := facts + 1;
      }
    }
  }

  const NO_SYMBOL := Symbol(0, 0)

  /** Most bytes have one identity; `more` holds the aliases. `moreHistory` only grows. */
  datatype FlowCell = FlowCell(one: Symbol, more: set<Symbol>, moreHistory: nat) {
    predicate Empty() {
      one.id == 0 && more == {}
    }

    function Symbols(): set<Symbol> {
      if one.id != 0 then more + {one} else more
    }

    ghost predicate Valid() {
      (one.id != 0 ==> one !in more) && forall v :: v in more ==> v.id != 0
    }

    function Add(v: Symbol): FlowCell {
      if one.id == 0 then this.(one := v) else this.(more := more + {v}, moreHistory := moreHistory + 1)
    }

    function Remove(v: Symbol): FlowCell {
      if one == v then this.(one := NO_SYMBOL) else this.(more := more - {v})
    }
  }

  const NO_CELL := FlowCell(NO_SYMBOL, {}, 0)

  /** Where a value lives: per location, the bitmask of its parts found there. */
  datatype FlowIndex = FlowIndex(locations: map<Location, nat>, history: nat)

  const NO_INDEX := FlowIndex(map[], 0)

  function CellAt(cells: map<Location, FlowCell>, loc: Location): FlowCell {
    if loc in cells then cells[loc] else NO_CELL
  }

  function IndexOf(ids: map<nat, FlowIndex>, id: nat): FlowIndex {
    if id in ids then ids[id] else NO_INDEX
  }

  function MaskAt(index: FlowIndex, loc: Location): nat {
    if loc in index.locations then index.locations[loc] else 0
  }

  /** The forward direction: the cell at the fact's location lists its symbol. */
  ghost predicate Listed(cells: map<Location, FlowCell>, f: Fact) {
    f.sym in CellAt(cells, f.loc).Symbols()
  }

  /** The reverse direction: the value's bitmask for the location has the part's bit. */
  ghost predicate Indexed(ids: map<nat, FlowIndex>, f: Fact) {
    Bits.Test(MaskAt(IndexOf(ids, f.sym.id), f.loc), f.sym.part)
  }

  ghost predicate IndexTidy(ids: map<nat, FlowIndex>) {
    forall id :: id in ids ==>
      && ids[id].locations != map[]
      && forall loc :: loc in ids[id].locations ==> ids[id].locations[loc] != 0
  }

  /* ---------- Updating the two directions ---------- */

  function AddIndexed(ids: map<nat, FlowIndex>, loc: Location, v: Symbol): map<nat, FlowIndex> {
    var index := IndexOf(ids, v.id);
    ids[v.id := FlowIndex(index.locations[loc := Bits.Set(MaskAt(index, loc), v.part)], index.history + 1)]
  }

  function RemoveIndexed(ids: map<nat, FlowIndex>, loc: Location, v: Symbol): map<nat, FlowIndex> {
    var index := IndexOf(ids, v.id);
    var mask := Bits.Clear(MaskAt(index, loc), v.part);
    var locations := if mask == 0 then index.locations - {loc} else index.locations[loc := mask];
    if locations == map[] then ids - {v.id} else ids[v.id := index.(locations := locations)]
  }

  lemma AddIndexedMember(ids: map<nat, FlowIndex>, loc: Location, v: Symbol, f: Fact)
    requires IndexTidy(ids)
    ensures IndexTidy(AddIndexed(ids, loc, v))
    ensures Indexed(AddIndexed(ids, loc, v), f) <==> f == Fact(loc, v) || Indexed(ids, f)
  {
    var mask := MaskAt(IndexOf(ids, v.id), loc);
    Bits.TestSet(mask, v.part, f.sym.part);
    Bits.TestSet(mask, v.part, v.part);
    Bits.TestZero(v.part);
    var ids' := AddIndexed(ids, loc, v);
    assert loc in ids'[v.id].locations;
    forall id | id in ids'
      ensures ids'[id].locations != map[] && forall l :: l in ids'[id].locations ==> ids'[id].locations[l] != 0
    {
      if id == v.id && v.id !in ids {
        assert ids'[id].locations.Keys == {loc};
      }
    }
  }

  lemma RemoveIndexedMember(ids: map<nat, FlowIndex>, loc: Location, v: Symbol, f: Fact)
    requires IndexTidy(ids)
    ensures IndexTidy(RemoveIndexed(ids, loc, v))
    ensures Indexed(RemoveIndexed(ids, loc, v), f) <==> f != Fact(loc, v) && Indexed(ids, f)
  {
    Bits.TestClear(MaskAt(IndexOf(ids, v.id), loc), v.part, f.sym.part);
    Bits.TestZero(f.sym.part);
    var locations := if Bits.Clear(MaskAt(IndexOf(ids, v.id), loc), v.part) == 0 then IndexOf(ids, v.id).locations - {loc}
                     else IndexOf(ids, v.id).locations[loc := Bits.Clear(MaskAt(IndexOf(ids, v.id), loc), v.part)];
    if locations == map[] && f.sym.id == v.id && f.loc != loc {
      assert f.loc !in locations;
    }
  }

  function RemoveCell(cells: map<Location, FlowCell>, loc: Location, v: Symbol): map<Location, FlowCell> {
    var c := CellAt(cells, loc).Remove(v);
    if c.Empty() then cells - {loc} else cells[loc := c]
  }

  ghost predicate CellsTidy(cells: map<Location, FlowCell>) {
    forall loc :: loc in cells ==> cells[loc].Valid() && !cells[loc].Empty()
  }

  lemma AddCellMember(cells: map<Location, FlowCell>, loc: Location, v: Symbol, f: Fact)
    requires CellsTidy(cells) && v.id != 0 && !Listed(cells, Fact(loc, v))
    ensures CellsTidy(cells[loc := CellAt(cells, loc).Add(v)])
    ensures Listed(cells[loc := CellAt(cells, loc).Add(v)], f) <==> f == Fact(loc, v) || Listed(cells, f)
  {
  }

  lemma RemoveCellMember(cells: map<Location, FlowCell>, loc: Location, v: Symbol, f: Fact)
    requires CellsTidy(cells) && v.id != 0 && Listed(cells, Fact(loc, v))
    ensures CellsTidy(RemoveCell(cells, loc, v))
    ensures Listed(RemoveCell(cells, loc, v), f) <==> f != Fact(loc, v) && Listed(cells, f)
  {
  }

  /** A fact the analysis may hold: a tracked location, a real value, a part below 64. */
  ghost predicate Admissible(f: Fact) {
    !f.loc.bank.Unknown? && f.sym.id != 0 && f.sym.part < MAX_CARRIER_BYTES
  }

  ghost predicate CellsAgree(cells: map<Location, FlowCell>, facts: set<Fact>) {
    CellsTidy(cells) && forall f {:trigger Listed(cells, f)} :: f in facts <==> Listed(cells, f)
  }

  ghost predicate IndexAgrees(ids: map<nat, FlowIndex>, facts: set<Fact>) {
    IndexTidy(ids) && forall f {:trigger Indexed(ids, f)} :: f in facts <==> Indexed(ids, f)
  }

  /** Forward cells, reverse index, register set and count all describe `facts`. */
  ghost predicate Consistent(cells: map<Location, FlowCell>, registers: set<Location>, ids: map<nat, FlowIndex>, count: nat, facts: set<Fact>) {
    && CellsAgree(cells, facts)
    && IndexAgrees(ids, facts)
    && registers == (set loc | loc in cells && !loc.bank.Frame?)
    && (forall f :: f in facts ==> Admissible(f))
    && count == |facts|
  }

  lemma ConsistentEmpty()
    ensures Consistent(map[], {}, map[], 0, {})
  {
    forall f: Fact ensures !Indexed(map[], f) { Bits.TestZero(f.sym.part); }
  }

  lemma CellsAgreeAdd(cells: map<Location, FlowCell>, facts: set<Fact>, loc: Location, v: Symbol)
    requires CellsAgree(cells, facts) && v.id != 0 && Fact(loc, v) !in facts
    ensures CellsAgree(cells[loc := CellAt(cells, loc).Add(v)], facts + {Fact(loc, v)})
  {
    var cells' := cells[loc := CellAt(cells, loc).Add(v)];
    assert !Listed(cells, Fact(loc, v));
    AddCellMember(cells, loc, v, Fact(loc, v));
    forall f ensures f in facts + {Fact(loc, v)} <==> Listed(cells', f) {
      AddCellMember(cells, loc, v, f);
      assert f in facts <==> Listed(cells, f);
    }
  }

  lemma IndexAgreesAdd(ids: map<nat, FlowIndex>, facts: set<Fact>, loc: Location, v: Symbol)
    requires IndexAgrees(ids, facts)
    ensures IndexAgrees(AddIndexed(ids, loc, v), facts + {Fact(loc, v)})
  {
    AddIndexedMember(ids, loc, v, Fact(loc, v));
    forall f ensures f in facts + {Fact(loc, v)} <==> Indexed(AddIndexed(ids, loc, v), f) {
      AddIndexedMember(ids, loc, v, f);
      assert f in facts <==> Indexed(ids, f);
    }
  }

  lemma CellsAgreeRemove(cells: map<Location, FlowCell>, facts: set<Fact>, loc: Location, v: Symbol)
    requires CellsAgree(cells, facts) && v.id != 0 && Fact(loc, v) in facts
    ensures CellsAgree(RemoveCell(cells, loc, v), facts - {Fact(loc, v)}) && loc in cells
  {
    assert Listed(cells, Fact(loc, v));
    RemoveCellMember(cells, loc, v, Fact(loc, v));
    forall f ensures f in facts - {Fact(loc, v)} <==> Listed(RemoveCell(cells, loc, v), f) {
      RemoveCellMember(cells, loc, v, f);
      assert f in facts <==> Listed(cells, f);
    }
  }

  lemma IndexAgreesRemove(ids: map<nat, FlowIndex>, facts: set<Fact>, loc: Location, v: Symbol)
    requires IndexAgrees(ids, facts)
    ensures IndexAgrees(RemoveIndexed(ids, loc, v), facts - {Fact(loc, v)})
  {
    RemoveIndexedMember(ids, loc, v, Fact(loc, v));
    forall f ensures f in facts - {Fact(loc, v)} <==> Indexed(RemoveIndexed(ids, loc, v), f) {
      RemoveIndexedMember(ids, loc, v, f);
      assert f in facts <==> Indexed(ids, f);
    }
  }

  lemma ConsistentAdd(cells: map<Location, FlowCell>, registers: set<Location>, ids: map<nat, FlowIndex>, count: nat, facts: set<Fact>,
                      loc: Location, v: Symbol)
    requires Consistent(cells, registers, ids, count, facts) && Admissible(Fact(loc, v)) && Fact(loc, v) !in facts
    ensures Consistent(cells[loc := CellAt(cells, loc).Add(v)],
                       if loc.bank.Frame? then registers else registers + {loc},
                       AddIndexed(ids, loc, v), count + 1, facts + {Fact(loc, v)})
  {
    hide CellsAgree, IndexAgrees;
    CellsAgreeAdd(cells, facts, loc, v);
    IndexAgreesAdd(ids, facts, loc, v);
  }

  lemma ConsistentRemove(cells: map<Location, FlowCell>, registers: set<Location>, ids: map<nat, FlowIndex>, count: nat, facts: set<Fact>,
                         loc: Location, v: Symbol)
    requires Consistent(cells, registers, ids, count, facts) && Fact(loc, v) in facts
    ensures count > 0
    ensures Consistent(RemoveCell(cells, loc, v),
                       if CellAt(cells, loc).Remove(v).Empty() then registers - {loc} else registers,
                       RemoveIndexed(ids, loc, v), count - 1, facts - {Fact(loc, v)})
  {
    hide CellsAgree, IndexAgrees;
    assert Admissible(Fact(loc, v));
    CellsAgreeRemove(cells, facts, loc, v);
    IndexAgreesRemove(ids, facts, loc, v);
  }

  /** The facts that say `at` carries each of `vs`. */
  function Aliases(at: Location, vs: set<Symbol>): set<Fact> {
    set v | v in vs :: Fact(at, v)
  }

  /** The facts about one byte. */
  function FactsHere(s: set<Fact>, at: Location): set<Fact> {
    set f | f in s && f.loc == at
  }

  function OneFact(at: Location, c: FlowCell): set<Fact> {
    if c.one.id != 0 then {Fact(at, c.one)} else {}
  }

  /** The symbols of a cell are the facts about its byte. */
  lemma CellSymbols(cells: map<Location, FlowCell>, facts: set<Fact>, at: Location)
    requires CellsAgree(cells, facts)
    ensures var c := CellAt(cells, at);
            && FactsHere(facts, at) == OneFact(at, c) + Aliases(at, c.more)
            && OneFact(at, c) !! Aliases(at, c.more)
            && (c.one.id != 0 ==> Fact(at, c.one) in facts)
            && (c.more == {} ==> Aliases(at, c.more) == {})
            && Aliases(at, c.more) <= facts
  {
    var c := CellAt(cells, at);
    forall f ensures f in OneFact(at, c) + Aliases(at, c.more) <==> f in facts && f.loc == at {
      assert Listed(cells, f) <==> f.sym in CellAt(cells, f.loc).Symbols();
      if f.loc == at { assert f == Fact(at, f.sym); }
    }
    assert c.one.id != 0 ==> Fact(at, c.one) in OneFact(at, c) + Aliases(at, c.more);
  }

  lemma AliasesShrink(at: Location, vs: set<Symbol>, todo: set<Symbol>, v: Symbol)
    requires todo <= vs && v in todo
    ensures Fact(at, v) in Aliases(at, vs) && Fact(at, v) !in Aliases(at, vs - todo)
    ensures Aliases(at, vs - (todo - {v})) == Aliases(at, vs - todo) + {Fact(at, v)}
  {
  }

  /* ---------- What operations cost ---------- */

  function Size<T>(s: set<T>): nat {
    |s|
  }

  lemma SizeRemove<T>(s: set<T>, x: T)
    requires x in s
    ensures Size(s) == Size(s - {x}) + 1
  {
  }

  lemma SizeAdd<T>(s: set<T>, x: T)
    ensures Size(s + {x}) <= Size(s) + 1
  {
  }

  lemma SizeKeeps<T>(s: set<T>, x: T)
    ensures Size(s - {x}) <= Size(s)
  {
    if x !in s { assert s - {x} == s; }
  }

  /** What a cell or an index holds, and what a scan of it costs, is covered by the storage retained. */
  ghost predicate HistoryKept(
    cells: map<Location, FlowCell>, registers: set<Location>, ids: map<nat, FlowIndex>, regHistory: nat, retained: nat)
  {
    && (forall loc :: loc in cells ==> Size(cells[loc].more) <= cells[loc].moreHistory <= retained)
    && (forall id :: id in ids ==> Size(ids[id].locations.Keys) <= ids[id].history <= retained)
    && Size(registers) <= regHistory <= retained && Size(cells.Keys) <= retained
  }

  lemma NothingHeld()
    ensures Size(NO_CELL.more) == 0 && Size(NO_INDEX.locations.Keys) == 0
  {
  }

  lemma HistoryAdd(cells: map<Location, FlowCell>, registers: set<Location>, ids: map<nat, FlowIndex>, regHistory: nat, retained: nat,
                   loc: Location, v: Symbol)
    requires HistoryKept(cells, registers, ids, regHistory, retained)
    ensures HistoryKept(cells[loc := CellAt(cells, loc).Add(v)], if loc.bank.Frame? then registers else registers + {loc},
                        AddIndexed(ids, loc, v), if loc.bank.Frame? then regHistory else regHistory + 1, retained + 1)
  {
    hide Size;
    var c, index := CellAt(cells, loc), IndexOf(ids, v.id);
    NothingHeld();
    SizeAdd(c.more, v);
    SizeAdd(cells.Keys, loc);
    SizeAdd(index.locations.Keys, loc);
    SizeAdd(registers, loc);
    assert cells[loc := c.Add(v)].Keys == cells.Keys + {loc};
    assert index.locations[loc := Bits.Set(MaskAt(index, loc), v.part)].Keys == index.locations.Keys + {loc};
  }

  lemma HistoryRemove(cells: map<Location, FlowCell>, registers: set<Location>, ids: map<nat, FlowIndex>, regHistory: nat, retained: nat,
                      loc: Location, v: Symbol)
    requires HistoryKept(cells, registers, ids, regHistory, retained)
    requires loc in cells && loc in IndexOf(ids, v.id).locations
    ensures HistoryKept(RemoveCell(cells, loc, v), if CellAt(cells, loc).Remove(v).Empty() then registers - {loc} else registers,
                        RemoveIndexed(ids, loc, v), regHistory, retained)
  {
    hide Size;
    var c, index := CellAt(cells, loc), IndexOf(ids, v.id);
    var mask := Bits.Clear(MaskAt(index, loc), v.part);
    SizeKeeps(c.more, v);
    SizeKeeps(cells.Keys, loc);
    SizeKeeps(registers, loc);
    SizeKeeps(index.locations.Keys, loc);
    assert (index.locations - {loc}).Keys == index.locations.Keys - {loc};
    assert index.locations[loc := mask].Keys == index.locations.Keys;
    assert (cells - {loc}).Keys == cells.Keys - {loc};
    assert cells[loc := c.Remove(v)].Keys == cells.Keys;
  }

  /** The cost of `n` rounds at `c` each. */
  function Times(n: nat, c: nat): nat {
    n * c
  }

  lemma TimesNext(n: nat, c: nat)
    ensures Times(0, c) == 0 && Times(n + 1, c) == Times(n, c) + c
  {
  }

  lemma TimesGrows(n: nat, m: nat, c: nat)
    requires n <= m
    ensures Times(n, c) <= Times(m, c)
  {
  }

  /** Another round over a carrier of at most 64 bytes. */
  lemma RoundCost(i: nat, size: nat, c: nat)
    requires i < size <= 64
    ensures Times(i + 1, c) == Times(i, c) + c <= 64 * c
  {
    TimesNext(i, c);
    TimesGrows(i + 1, 64, c);
  }

  /** A scan of a whole image that retains `r`. */
  function ScanCost(r: nat): nat {
    Times(r + 1, 3 * (r + 1))
  }

  lemma ScanAll(n: nat, r: nat)
    requires n <= r
    ensures r + Times(n, 3 * r + 2) <= ScanCost(r) && r + Times(n, 2 * r + 1) <= ScanCost(r)
  {
    TimesGrows(n, r, 3 * r + 2);
    TimesGrows(n, r, 2 * r + 1);
  }

  /** Any one operation on an image that retains `r`. */
  function OperationCost(r: nat): nat {
    Times(r + 1, 18000 * (r + 1))
  }

  lemma OperationCosts(r: nat)
    ensures 18000 * (r + 1) <= OperationCost(r) && ScanCost(r) + 128 * (r + 1) <= OperationCost(r)
  {
    TimesGrows(1, r + 1, 18000 * (r + 1));
  }

  lemma RenameRound(k: nat, n: nat, c: nat)
    requires k < n
    ensures Times(k + 1, 130 * c) == Times(k, 130 * c) + 130 * c <= Times(n, 130 * c)
    ensures Times(k + 1, 64 * c) == Times(k, 64 * c) + 64 * c <= Times(n, 64 * c)
  {
    TimesNext(k, 130 * c);
    TimesNext(k, 64 * c);
    TimesGrows(k + 1, n, 130 * c);
    TimesGrows(k + 1, n, 64 * c);
  }

  /** Renaming along an edge with n parameters. */
  lemma ParameterCosts(n: nat, c: nat)
    ensures 2 * Times(n, 130 * c) + 2 * Times(n, 64 * c) <= Times(n, 400 * c)
  {
  }

  /* ---------- The image ---------- */

  class FlowImage {
    var cells: map<Location, FlowCell>
    var registers: set<Location>
    var ids: map<nat, FlowIndex>
    var count: nat
    var retained: nat
    var regHistory: nat
    const b: FlowBudget

    /** The plain set that all indexes describe. */
    ghost var facts: set<Fact>

    ghost predicate Valid()
      reads this
    {
      && Consistent(cells, registers, ids, count, facts) && count <= retained
      && HistoryKept(cells, registers, ids, regHistory, retained)
    }

    /** The image and its budget are consistent, and the budget holds credits for the image. */
    ghost predicate Ready()
      reads this, b
    {
      Valid() && b.Valid() && retained <= b.facts
    }

    constructor (b: FlowBudget)
      ensures Valid() && facts == {} && this.b == b && retained == 0
    {
      this.b := b;
      cells, registers, ids := map[], {}, map[];
      count, retained, regHistory := 0, 0, 0;
      facts := {};
      ConsistentEmpty();
    }

    method Has(loc: Location, v: Symbol) returns (ok: bool, found: bool)
      requires Valid() && b.Valid() && v.id != 0
      modifies b
      ensures b.Valid() && b.facts == old(b.facts)
      ensures !ok ==> b.Exhausted()
      ensures b.work <= old(b.work) + 1
      ensures ok ==> (found <==> Fact(loc, v) in facts)
    {
      found := false;
      ok := b.Charge(1);
      if ok {
        var c := CellAt(cells, loc);
        found := c.one == v || v in c.more;
        assert Listed(cells, Fact(loc, v)) <==> found;
      }
    }

    method Add(loc: Location, v: Symbol) returns (ok: bool)
      requires Ready() && Admissible(Fact(loc, v))
      modifies this, b
      ensures b.Valid()
      ensures !ok ==> b.Exhausted()
      ensures b.work <= old(b.work) + 2
      ensures ok ==> Ready() && facts == old(facts) + {Fact(loc, v)}
      ensures ok ==> b.facts - retained == old(b.facts - retained) && old(retained) <= retained <= old(retained) + 1
      ensures ok ==> retained - count == old(retained - count)
    {
      hide Consistent, HistoryKept, Size, Times, ScanCost, OperationCost;
      var found;
      ok, found := Has(loc, v);
      if !ok || found { return; }
      ok := b.AddFact();
      if !ok { return; }
      Store(loc, v);
    }

    method Store(loc: Location, v: Symbol)
      requires Valid() && Admissible(Fact(loc, v)) && Fact(loc, v) !in facts
      modifies this
      ensures Valid() && facts == old(facts) + {Fact(loc, v)} && retained == old(retained) + 1 && count == old(count) + 1
    {
      hide Consistent, HistoryKept, Size, Times, ScanCost, OperationCost;
      ConsistentAdd(cells, registers, ids, count, facts, loc, v);
      HistoryAdd(cells, registers, ids, regHistory, retained, loc, v);
      cells := cells[loc := CellAt(cells, loc).Add(v)];
      if !loc.bank.Frame? {
        registers := registers + {loc};
        regHistory := regHistory + 1;
      }
      ids := AddIndexed(ids, loc, v);
      count := count + 1;
      retained := retained + 1;
      facts := facts + {Fact(loc, v)};
    }

    /** Storage credits are kept: maps do not shrink on deletion. */
    method Remove(loc: Location, v: Symbol) returns (ok: bool)
      requires Ready() && Fact(loc, v) in facts
      modifies this, b
      ensures b.Valid()
      ensures !ok ==> b.Exhausted()
      ensures b.work <= old(b.work) + 1
      ensures ok ==> Ready() && facts == old(facts) - {Fact(loc, v)} && count == old(count) - 1
      ensures ok ==> b.facts == old(b.facts) && retained == old(retained)
    {
      hide Consistent, HistoryKept, Size, Times, ScanCost, OperationCost;
      ok := b.Charge(1);
      if !ok { return; }
      ConsistentRemove(cells, registers, ids, count, facts, loc, v);
      NoCells();
      IndexLocations(v.id);
      HistoryRemove(cells, registers, ids, regHistory, retained, loc, v);
      if CellAt(cells, loc).Remove(v).Empty() {
        registers := registers - {loc};
      }
      cells := RemoveCell(cells, loc, v);
      ids := RemoveIndexed(ids, loc, v);
      count := count - 1;
      facts := facts - {Fact(loc, v)};
    }

    /** The identities of one byte, as the cell splits them. */
    lemma CellContents(at: Location)
      requires Valid()
      ensures var c := CellAt(cells, at);
              && FactsHere(facts, at) == OneFact(at, c) + Aliases(at, c.more)
              && OneFact(at, c) !! Aliases(at, c.more)
              && (c.one.id != 0 ==> Fact(at, c.one) in facts)
              && (c.more == {} ==> Aliases(at, c.more) == {})
              && Aliases(at, c.more) <= facts
    {
      CellSymbols(cells, facts, at);
    }

    /** What scanning a cell, an index or the whole image may cost. */
    lemma ScanCosts(at: Location, id: nat)
      requires Valid()
      ensures Size(CellAt(cells, at).more) <= CellAt(cells, at).moreHistory <= retained
      ensures Size(IndexOf(ids, id).locations.Keys) <= IndexOf(ids, id).history <= retained
      ensures Size(registers) <= regHistory <= retained && Size(cells.Keys) <= retained && count <= retained
    {
    }

    /** Bit masks of admissible facts have at most 64 bits. */
    lemma MaskBits(id: nat, loc: Location, parts: nat)
      requires Valid() && forall part :: Bits.Test(parts, part) <==> Fact(loc, Symbol(id, part)) in facts
      ensures Bits.Len(parts) <= 64
    {
      FactsAdmissible();
      if parts > 0 { Bits.TestTop(parts); }
    }

    lemma FactsAdmissible()
      requires Valid()
      ensures Known(facts) && forall f :: f in facts ==> Admissible(f)
    {
    }

    /** Removes every identity of one byte. */
    method ClearCell(at: Location) returns (ok: bool)
      requires Ready()
      modifies this, b
      ensures b.Valid()
      ensures !ok ==> b.Exhausted()
      ensures b.work <= old(b.work) + 1 + 2 * old(retained)
      ensures ok ==> Ready() && facts == old(facts) - FactsHere(old(facts), at)
      ensures ok ==> b.facts == old(b.facts) && retained == old(retained)
    {
      hide Consistent, HistoryKept, Size, Times, ScanCost, OperationCost;
      var c := CellAt(cells, at);
      CellContents(at);
      ScanCosts(at, 0);
      ok := true;
      if c.one.id != 0 {
        ok := Remove(at, c.one);
        if !ok { return; }
      }
      if c.more == {} { return; }
      ok := b.Charge(c.moreHistory);
      if !ok { return; }
      ok := RemoveAliases(at, c.more);
    }

    method RemoveAliases(at: Location, vs: set<Symbol>) returns (ok: bool)
      requires Ready() && Aliases(at, vs) <= facts
      modifies this, b
      ensures b.Valid()
      ensures !ok ==> b.Exhausted()
      ensures b.work <= old(b.work) + Size(vs)
      ensures ok ==> Ready() && facts == old(facts) - Aliases(at, vs)
      ensures ok ==> b.facts == old(b.facts) && retained == old(retained)
    {
      hide Consistent, HistoryKept, Size, Times, ScanCost, OperationCost;
      ok := true;
      var todo := vs;
      while todo != {}
        invariant Ready() && todo <= vs && ok
        invariant facts == old(facts) - Aliases(at, vs - todo)
        invariant b.facts == old(b.facts) && retained == old(retained)
        invariant b.work <= old(b.work) + Size(vs) - Size(todo)
        decreases todo
      {
        var v :| v in todo;
        SizeRemove(todo, v);
        AliasesShrink(at, vs, todo, v);
        ok := Remove(at, v);
        if !ok { return; }
        todo := todo - {v};
      }
      assert vs - todo == vs;
    }

    method Clear(loc: Location, size: nat) returns (ok: bool)
      requires Ready() && ValidCarrier(loc, size, false)
      modifies this, b
      ensures b.Valid()
      ensures !ok ==> b.Exhausted()
      ensures b.work <= old(b.work) + 128 * (old(retained) + 1)
      ensures ok ==> Ready() && facts == Cleared(old(facts), loc, size)
      ensures ok ==> b.facts == old(b.facts) && retained == old(retained)
    {
      hide Consistent, HistoryKept, Size, Times, ScanCost, OperationCost;
      ok := true;
      TimesNext(0, 2 * retained + 2);
      for i := 0 to size
        invariant Ready() && ok
        invariant facts == ClearedBytes(old(facts), loc, i)
        invariant b.facts == old(b.facts) && retained == old(retained)
        invariant b.work <= old(b.work) + Times(i, 2 * retained + 2) && Times(i, 2 * retained + 2) <= 64 * (2 * retained + 2)
      {
        RoundCost(i, size, 2 * retained + 2);
        ok := b.Charge(1);
        if !ok { return; }
        ok := ClearCell(loc.Next(i));
        if !ok { return; }
      }
      ClearedByBytes(old(facts), loc, size);
    }

    /** Drops every alias of a value, through the reverse index. */
    method Forget(id: nat) returns (ok: bool)
      requires Ready()
      modifies this, b
      ensures b.Valid()
      ensures !ok ==> b.Exhausted()
      ensures b.work <= old(b.work) + 129 * old(retained)
      ensures ok ==> Ready() && facts == Forgotten(old(facts), id)
      ensures ok ==> b.facts == old(b.facts) && retained == old(retained)
    {
      hide Consistent, HistoryKept, Size, Times, ScanCost, OperationCost;
      var index := IndexOf(ids, id);
      IndexLocations(id);
      ScanCosts(Location(GP, 0, 0), id);
      if index.locations == map[] { return true; }
      ok := b.Charge(index.history);
      if !ok { return; }
      var todo := index.locations.Keys;
      while todo != {}
        invariant Ready() && todo <= index.locations.Keys && ok
        invariant facts == (set f | f in old(facts) && (f.sym.id != id || f.loc in todo))
        invariant b.facts == old(b.facts) && retained == old(retained)
        invariant b.work <= old(b.work) + index.history + 128 * (Size(index.locations.Keys) - Size(todo))
        decreases todo
      {
        var loc :| loc in todo;
        SizeRemove(todo, loc);
        ok := ForgetAt(id, loc, index.locations[loc]);
        if !ok { return; }
        todo := todo - {loc};
      }
    }

    /** A value's facts are exactly the bits of its index. */
    lemma IndexLocations(id: nat)
      requires Valid()
      ensures forall f :: f in facts && f.sym.id == id ==> f.loc in IndexOf(ids, id).locations
      ensures forall loc, part :: loc in IndexOf(ids, id).locations ==>
                (Bits.Test(IndexOf(ids, id).locations[loc], part) <==> Fact(loc, Symbol(id, part)) in facts)
    {
      forall f | f in facts && f.sym.id == id ensures f.loc in IndexOf(ids, id).locations {
        assert Indexed(ids, f);
        Bits.TestZero(f.sym.part);
      }
      forall loc, part | loc in IndexOf(ids, id).locations
        ensures Bits.Test(IndexOf(ids, id).locations[loc], part) <==> Fact(loc, Symbol(id, part)) in facts
      {
        assert Indexed(ids, Fact(loc, Symbol(id, part))) <==> Bits.Test(IndexOf(ids, id).locations[loc], part);
      }
    }

    method ForgetAt(id: nat, loc: Location, parts: nat) returns (ok: bool)
      requires Ready()
      requires forall part :: Bits.Test(parts, part) <==> Fact(loc, Symbol(id, part)) in facts
      modifies this, b
      ensures b.Valid()
      ensures !ok ==> b.Exhausted()
      ensures b.work <= old(b.work) + 128
      ensures ok ==> Ready() && facts == (set f | f in old(facts) && !(f.sym.id == id && f.loc == loc))
      ensures ok ==> b.facts == old(b.facts) && retained == old(retained)
    {
      hide Consistent, HistoryKept, Size, Times, ScanCost, OperationCost;
      MaskBits(id, loc, parts);
      ok := true;
      for part := 0 to Max(16, Bits.Len(parts))
        invariant Ready() && ok
        invariant facts == (set f | f in old(facts) && !(f.sym.id == id && f.loc == loc && f.sym.part < part))
        invariant b.facts == old(b.facts) && retained == old(retained)
        invariant b.work <= old(b.work) + 2 * part
      {
        ok := b.Charge(1);
        if !ok { return; }
        if Bits.Test(parts, part) {
          ok := Remove(loc, Symbol(id, part));
          if !ok { return; }
        }
      }
      forall f | f in old(facts) && f.sym.id == id && f.loc == loc
        ensures f.sym.part < Bits.Len(parts)
      {
        assert f == Fact(loc, Symbol(id, f.sym.part));
        Bits.TestBelowLen(parts, f.sym.part);
      }
    }

    /** Returns the image's storage credits to the budget. */
    method Release()
      requires Ready()
      modifies this, b
      ensures b.Valid() && b.facts == old(b.facts) - old(retained) && retained == 0 && b.work == old(b.work)
    {
      b.facts := b.facts - retained;
      cells, ids, registers, count, retained := map[], map[], {}, 0, 0;
      regHistory := 0;
      facts := {};
    }

    method Clone() returns (ok: bool, out: FlowImage)
      requires Ready()
      modifies b
      ensures fresh(out) && out.b == b
      ensures b.Valid()
      ensures !ok ==> b.Exhausted()
      ensures b.work <= old(b.work) + ScanCost(retained)
      ensures ok ==> out.retained <= retained
      ensures ok ==> out.Valid() && out.facts == facts
      ensures ok ==> b.facts == old(b.facts) + out.retained
    {
      hide Consistent, HistoryKept, Size, Times, ScanCost, OperationCost;
      out := new FlowImage(b);
      ok := true;
      NoCells();
      if cells == map[] {
        assert facts == {};
        return;
      }
      ScanCosts(Location(GP, 0, 0), 0);
      ScanAll(Size(cells.Keys), retained);
      TimesNext(0, 3 * retained + 2);
      ok := b.Charge(retained);
      if !ok { return; }
      var todo := cells.Keys;
      while todo != {}
        invariant ok && b.Valid() && todo <= cells.Keys && out.Valid()
        invariant out.facts == (set f | f in facts && f.loc !in todo)
        invariant b.facts == old(b.facts) + out.retained
        invariant b.work + Times(Size(todo), 3 * retained + 2) <= old(b.work) + retained + Times(Size(cells.Keys), 3 * retained + 2)
        invariant out.retained == out.count
        decreases todo
      {
        var loc :| loc in todo;
        SizeRemove(todo, loc);
        TimesNext(Size(todo) - 1, 3 * retained + 2);
        ok := CopyCell(loc, out);
        if !ok { return; }
        todo := todo - {loc};
      }
      ClonedCount(out);
    }

    /** Facts live only at locations with a cell. */
    lemma NoCells()
      requires Valid()
      ensures forall f :: f in facts ==> f.loc in cells
    {
      forall f | f in facts ensures f.loc in cells {
        assert Listed(cells, f);
      }
    }

    /** Adds all identities of one byte to another image. */
    method CopyCell(loc: Location, out: FlowImage) returns (ok: bool)
      requires Valid() && out.Ready() && out.b == b && out != this && retained <= b.facts
      modifies out, b
      ensures b.Valid()
      ensures !ok ==> b.Exhausted()
      ensures b.work <= old(b.work) + 2 + 3 * retained
      ensures ok ==> out.retained - out.count == old(out.retained - out.count)
      ensures ok ==> out.Ready() && b.facts - out.retained == old(b.facts - out.retained)
      ensures ok ==> out.facts == old(out.facts) + FactsHere(facts, loc)
    {
      hide Consistent, HistoryKept, Size, Times, ScanCost, OperationCost;
      var c := CellAt(cells, loc);
      CellContents(loc);
      ScanCosts(loc, 0);
      FactsAdmissible();
      ok := true;
      if c.one.id != 0 {
        ok := out.Add(loc, c.one);
        if !ok { return; }
      }
      if c.more == {} { return; }
      ok := b.Charge(c.moreHistory);
      if !ok { return; }
      ok := out.AddAliases(loc, c.more);
    }

    method AddAliases(at: Location, vs: set<Symbol>) returns (ok: bool)
      requires Ready() && forall f :: f in Aliases(at, vs) ==> Admissible(f)
      modifies this, b
      ensures b.Valid()
      ensures !ok ==> b.Exhausted()
      ensures b.work <= old(b.work) + 2 * Size(vs)
      ensures ok ==> retained - count == old(retained - count)
      ensures ok ==> Ready() && facts == old(facts) + Aliases(at, vs)
      ensures ok ==> b.facts - retained == old(b.facts - retained)
    {
      hide Consistent, HistoryKept, Size, Times, ScanCost, OperationCost;
      ok := true;
      var todo := vs;
      while todo != {}
        invariant Ready() && todo <= vs && ok
        invariant facts == old(facts) + Aliases(at, vs - todo)
        invariant b.facts - retained == old(b.facts - retained)
        invariant b.work <= old(b.work) + 2 * (Size(vs) - Size(todo))
        invariant retained - count == old(retained - count)
        decreases todo
      {
        var v :| v in todo;
        SizeRemove(todo, v);
        AliasesShrink(at, vs, todo, v);
        ok := Add(at, v);
        if !ok { return; }
        todo := todo - {v};
      }
      assert vs - todo == vs;
    }

    /** Intersects in place and reports whether a fact was lost. */
    method Meet(other: FlowImage) returns (ok: bool, changed: bool)
      requires Ready() && other.Valid() && other.b == b && other != this
      modifies this, b
      ensures b.Valid()
      ensures !ok ==> b.Exhausted()
      ensures b.work <= old(b.work) + ScanCost(old(retained))
      ensures ok ==> Ready() && facts == old(facts) * other.facts
      ensures ok ==> (changed <==> facts != old(facts))
      ensures ok ==> b.facts == old(b.facts) && retained == old(retained)
    {
      hide Consistent, HistoryKept, Size, Times, ScanCost, OperationCost;
      changed := false;
      ok := true;
      NoCells();
      CountIsSize();
      if cells == map[] { return; }
      ScanCosts(Location(GP, 0, 0), 0);
      ScanAll(Size(cells.Keys), retained);
      TimesNext(0, 3 * retained + 2);
      ok := b.Charge(retained);
      if !ok { return; }
      var todo := cells.Keys;
      while todo != {}
        invariant ok && Ready() && b.facts == old(b.facts) && retained == old(retained)
        invariant facts == (set f | f in old(facts) && (f.loc in todo || f in other.facts))
        invariant b.work + Times(Size(todo), 3 * retained + 2) <= old(b.work) + retained + Times(Size(old(cells).Keys), 3 * retained + 2)
        invariant if changed then count < old(count) else facts == old(facts) && count == old(count)
        decreases todo
      {
        var loc :| loc in todo;
        SizeRemove(todo, loc);
        TimesNext(Size(todo) - 1, 3 * retained + 2);
        var lost;
        ok, lost := MeetCell(loc, other);
        if !ok { return; }
        changed := changed || lost;
        todo := todo - {loc};
      }
      CountIsSize();
    }

    lemma CountIsSize()
      requires Valid()
      ensures count == Size(facts)
    {
    }

    lemma FactCount()
      requires Valid()
      ensures |facts| <= retained
    {
    }

    lemma ClonedCount(out: FlowImage)
      requires Valid() && out.Valid() && out.facts == facts && out.retained == out.count
      ensures out.retained <= retained
    {
      hide Consistent, Size;
      CountIsSize();
      out.CountIsSize();
    }

    method MeetCell(loc: Location, other: FlowImage) returns (ok: bool, lost: bool)
      requires Ready() && other.Valid() && other.b == b && other != this
      modifies this, b
      ensures b.Valid()
      ensures !ok ==> b.Exhausted()
      ensures b.work <= old(b.work) + 2 + 3 * old(retained)
      ensures ok ==> Ready() && facts == old(facts) - (FactsHere(old(facts), loc) - other.facts)
      ensures ok ==> if lost then count < old(count) else facts == old(facts) && count == old(count)
      ensures ok ==> b.facts == old(b.facts) && retained == old(retained)
    {
      hide Consistent, HistoryKept, Size, Times, ScanCost, OperationCost;
      var c := CellAt(cells, loc);
      CellContents(loc);
      ScanCosts(loc, 0);
      lost := false;
      ok := true;
      if c.one.id != 0 {
        ok, lost := MeetSymbol(loc, c.one, other);
        if !ok { return; }
      }
      if c.more == {} { return; }
      ok := b.Charge(c.moreHistory);
      if !ok { return; }
      var gone;
      ok, gone := MeetAliases(loc, c.more, other);
      lost := lost || gone;
    }

    method MeetAliases(at: Location, vs: set<Symbol>, other: FlowImage) returns (ok: bool, lost: bool)
      requires Ready() && other.Valid() && other.b == b && other != this && Aliases(at, vs) <= facts
      modifies this, b
      ensures b.Valid()
      ensures !ok ==> b.Exhausted()
      ensures b.work <= old(b.work) + 2 * Size(vs)
      ensures ok ==> Ready() && facts == old(facts) - (Aliases(at, vs) - other.facts)
      ensures ok ==> if lost then count < old(count) else facts == old(facts) && count == old(count)
      ensures ok ==> b.facts == old(b.facts) && retained == old(retained)
    {
      hide Consistent, HistoryKept, Size, Times, ScanCost, OperationCost;
      ok, lost := true, false;
      var todo := vs;
      while todo != {}
        invariant Ready() && todo <= vs && ok
        invariant facts == old(facts) - (Aliases(at, vs - todo) - other.facts)
        invariant if lost then count < old(count) else facts == old(facts) && count == old(count)
        invariant b.facts == old(b.facts) && retained == old(retained)
        invariant b.work <= old(b.work) + 2 * (Size(vs) - Size(todo))
        decreases todo
      {
        var v :| v in todo;
        SizeRemove(todo, v);
        AliasesShrink(at, vs, todo, v);
        var gone;
        ok, gone := MeetSymbol(at, v, other);
        if !ok { return; }
        lost := lost || gone;
        todo := todo - {v};
      }
      assert vs - todo == vs;
    }

    method MeetSymbol(loc: Location, v: Symbol, other: FlowImage) returns (ok: bool, lost: bool)
      requires Ready() && other.Valid() && other.b == b && other != this && Fact(loc, v) in facts
      modifies this, b
      ensures b.Valid()
      ensures !ok ==> b.Exhausted()
      ensures b.work <= old(b.work) + 2
      ensures ok ==> Ready() && (lost <==> Fact(loc, v) !in other.facts)
      ensures ok ==> if lost then facts == old(facts) - {Fact(loc, v)} && count < old(count) else facts == old(facts) && count == old(count)
      ensures ok ==> b.facts == old(b.facts) && retained == old(retained)
    {
      lost := false;
      var found;
      assert Admissible(Fact(loc, v));
      ok, found := other.Has(loc, v);
      if ok && !found {
        lost := true;
        ok := Remove(loc, v);
      }
    }

    /** Copies the facts of `size` bytes, restated at `dst`; each costs one storage credit. */
    method Snapshot(src: Location, dst: Location, size: nat, saved: seq<Fact>) returns (ok: bool, out: seq<Fact>)
      requires Ready() && ValidCarrier(src, size, true) && ValidCarrier(dst, size, false)
      modifies b
      ensures b.Valid()
      ensures !ok ==> b.Exhausted()
      ensures b.work <= old(b.work) + 128 * (retained + 1)
      ensures ok ==> |out| <= |saved| + 64 * (retained + 1)
      ensures ok ==> b.facts == old(b.facts) + |out| - |saved| && |out| >= |saved|
      ensures ok ==> forall f :: f in out <==> f in saved || f in Moved(facts, src, dst, size)
    {
      hide Consistent, HistoryKept, Size, Times, ScanCost, OperationCost;
      FactsAdmissible();
      out := saved;
      ok := true;
      TimesNext(0, 2 * retained + 2);
      TimesNext(0, retained + 1);
      for i := 0 to size
        invariant ok && Ready() && b.facts == old(b.facts) + |out| - |saved| && |out| >= |saved|
        invariant forall f :: f in out <==> (f in saved || MovedBelow(facts, src, dst, i, f))
        invariant b.work <= old(b.work) + Times(i, 2 * retained + 2) && Times(i, 2 * retained + 2) <= 64 * (2 * retained + 2)
        invariant |out| <= |saved| + Times(i, retained + 1) && Times(i, retained + 1) <= 64 * (retained + 1)
      {
        RoundCost(i, size, 2 * retained + 2);
        RoundCost(i, size, retained + 1);
        ok := b.Charge(1);
        if !ok { return; }
        ok, out := SnapshotCell(src.Next(i), dst.Next(i), out);
        if !ok { return; }
      }
      forall f ensures f in Moved(facts, src, dst, size) <==> MovedBelow(facts, src, dst, size, f) {
        MovedByStep(facts, src, dst, size, f);
      }
    }

    method SnapshotCell(at: Location, dst: Location, saved: seq<Fact>) returns (ok: bool, out: seq<Fact>)
      requires Ready()
      modifies b
      ensures b.Valid()
      ensures !ok ==> b.Exhausted()
      ensures b.work <= old(b.work) + 1 + 2 * retained
      ensures ok ==> |out| <= |saved| + retained + 1
      ensures ok ==> b.facts == old(b.facts) + |out| - |saved| && |out| >= |saved|
      ensures ok ==> forall f :: f in out <==> f in saved || (f.loc == dst && Fact(at, f.sym) in facts)
    {
      var c := CellAt(cells, at);
      forall v ensures v in c.Symbols() <==> Fact(at, v) in facts {
        assert Listed(cells, Fact(at, v)) <==> v in c.Symbols();
      }
      ScanCosts(at, 0);
      out := saved;
      ok := true;
      if c.one.id != 0 {
        ok := b.AddFact();
        if !ok { return; }
        out := out + [Fact(dst, c.one)];
      }
      if c.more == {} { return; }
      ok := b.Charge(c.moreHistory);
      if !ok { return; }
      ok, out := SaveAliases(dst, c.more, out);
    }

    method SaveAliases(dst: Location, vs: set<Symbol>, saved: seq<Fact>) returns (ok: bool, out: seq<Fact>)
      requires b.Valid()
      modifies b
      ensures b.Valid()
      ensures !ok ==> b.Exhausted()
      ensures b.work <= old(b.work) + Size(vs)
      ensures ok ==> |out| == |saved| + Size(vs)
      ensures ok ==> b.facts == old(b.facts) + |out| - |saved| && |out| >= |saved|
      ensures ok ==> forall f :: f in out <==> f in saved || (f.loc == dst && f.sym in vs)
    {
      ok, out := true, saved;
      var todo := vs;
      while todo != {}
        invariant ok && b.Valid() && todo <= vs && b.facts == old(b.facts) + |out| - |saved| && |out| >= |saved|
        invariant forall f :: f in out <==> f in saved || (f.loc == dst && f.sym in vs - todo)
        invariant b.work <= old(b.work) + Size(vs) - Size(todo)
        invariant |out| == |saved| + Size(vs) - Size(todo)
        decreases todo
      {
        var v :| v in todo;
        SizeRemove(todo, v);
        ok := b.AddFact();
        if !ok { return; }
        out := out + [Fact(dst, v)];
        todo := todo - {v};
      }
    }

    /** Adds saved facts and returns their snapshot credits. */
    method Restore(saved: seq<Fact>) returns (ok: bool)
      requires Ready() && retained + |saved| <= b.facts
      requires forall f :: f in saved ==> Admissible(f)
      modifies this, b
      ensures b.Valid()
      ensures !ok ==> b.Exhausted()
      ensures b.work <= old(b.work) + 2 * |saved|
      ensures ok ==> retained <= old(retained) + |saved|
      ensures ok ==> Ready() && facts == old(facts) + (set f | f in saved)
      ensures ok ==> b.facts - retained == old(b.facts - retained) - |saved|
    {
      hide Consistent, HistoryKept, Size, Times, ScanCost, OperationCost;
      ok := true;
      for k := 0 to |saved|
        invariant ok && Ready() && b.facts - retained == old(b.facts - retained)
        invariant facts == old(facts) + (set f | f in saved[..k])
        invariant b.work <= old(b.work) + 2 * k
        invariant retained <= old(retained) + k
      {
        assert saved[..k + 1] == saved[..k] + [saved[k]];
        ok := Add(saved[k].loc, saved[k].sym);
        if !ok { return; }
      }
      assert saved[..|saved|] == saved;
      b.facts := b.facts - |saved|;
    }

    /** Forgets a carrier that is about to be written, with its zero-extended half. */
    method Overwrite(loc: Location, size: nat) returns (ok: bool)
      requires Ready() && ValidCarrier(loc, size, false) && (ZeroExtends(loc, size) ==> loc.byte == 0)
      modifies this, b
      ensures b.Valid()
      ensures !ok ==> b.Exhausted()
      ensures b.work <= old(b.work) + 256 * (old(retained) + 1)
      ensures ok ==> Ready() && facts == Overwritten(old(facts), loc, size)
      ensures ok ==> b.facts == old(b.facts) && retained == old(retained)
    {
      hide Consistent, HistoryKept, Size, Times, ScanCost, OperationCost;
      ok := Clear(loc, size);
      if !ok { return; }
      if ZeroExtends(loc, size) {
        ok := Clear(loc.Next(4), 4);
      }
    }

    method CopyEffect(e: Effect) returns (ok: bool)
      requires Ready() && EffectValid(e) && e.kind.Copy?
      modifies this, b
      ensures b.Valid()
      ensures !ok ==> b.Exhausted()
      ensures b.work <= old(b.work) + 512 * (old(retained) + 1)
      ensures ok ==> retained + 1 <= 65 * (old(retained) + 1)
      ensures ok ==> Ready() && facts == Overwritten(old(facts), e.dst, e.size) + Moved(old(facts), e.src, e.dst, e.size)
      ensures ok ==> b.facts - retained == old(b.facts - retained)
    {
      hide Consistent, HistoryKept, Size, Times, ScanCost, OperationCost;
      FactsAdmissible();
      var saved;
      ok, saved := Snapshot(e.src, e.dst, e.size, []);
      if !ok { return; }
      ok := Overwrite(e.dst, e.size);
      if !ok { return; }
      MovedAdmissible(old(facts), e.src, e.dst, e.size);
      ok := Restore(saved);
    }

    method SwapEffect(e: Effect) returns (ok: bool)
      requires Ready() && EffectValid(e) && e.kind.Swap?
      modifies this, b
      ensures b.Valid()
      ensures !ok ==> b.Exhausted()
      ensures b.work <= old(b.work) + 1024 * (old(retained) + 1)
      ensures ok ==> retained + 1 <= 129 * (old(retained) + 1)
      ensures ok ==> Ready() && facts == Overwritten(Overwritten(old(facts), e.src, e.size), e.dst, e.size)
                                         + Moved(old(facts), e.src, e.dst, e.size) + Moved(old(facts), e.dst, e.src, e.size)
      ensures ok ==> b.facts - retained == old(b.facts - retained)
    {
      hide Consistent, HistoryKept, Size, Times, ScanCost, OperationCost;
      FactsAdmissible();
      var saved;
      ok, saved := Snapshot(e.src, e.dst, e.size, []);
      if !ok { return; }
      ok, saved := Snapshot(e.dst, e.src, e.size, saved);
      if !ok { return; }
      ok := Overwrite(e.src, e.size);
      if !ok { return; }
      ok := Overwrite(e.dst, e.size);
      if !ok { return; }
      MovedAdmissible(old(facts), e.src, e.dst, e.size);
      MovedAdmissible(old(facts), e.dst, e.src, e.size);
      ok := Restore(saved);
    }

    /** A call leaves only the frame. */
    method CallEffect() returns (ok: bool)
      requires Ready()
      modifies this, b
      ensures b.Valid()
      ensures !ok ==> b.Exhausted()
      ensures b.work <= old(b.work) + ScanCost(old(retained))
      ensures ok ==> Ready() && facts == (set f | f in old(facts) && f.loc.bank.Frame?)
      ensures ok ==> b.facts == old(b.facts) && retained == old(retained)
    {
      hide Consistent, HistoryKept, Size, Times, ScanCost, OperationCost;
      RegisterFacts();
      ok := true;
      if registers == {} { return; }
      ScanCosts(Location(GP, 0, 0), 0);
      ScanAll(Size(registers), retained);
      TimesNext(0, 2 * retained + 1);
      ok := b.Charge(regHistory);
      if !ok { return; }
      var todo := registers;
      while todo != {}
        invariant ok && Ready() && b.facts == old(b.facts) && retained == old(retained) && todo <= old(registers)
        invariant facts == (set f | f in old(facts) && (f.loc.bank.Frame? || f.loc in todo))
        invariant b.work + Times(Size(todo), 2 * retained + 1) <= old(b.work) + retained + Times(Size(old(registers)), 2 * retained + 1)
        decreases todo
      {
        var loc :| loc in todo;
        SizeRemove(todo, loc);
        TimesNext(Size(todo) - 1, 2 * retained + 1);
        ok := ClearCell(loc);
        if !ok { return; }
        todo := todo - {loc};
      }
    }

    lemma RegisterFacts()
      requires Valid()
      ensures forall f :: f in facts && !f.loc.bank.Frame? ==> f.loc in registers
      ensures forall loc :: loc in registers ==> !loc.bank.Frame?
    {
      NoCells();
    }

    /** One emitted effect. */
    method Apply(e: Effect) returns (ok: bool)
      requires Ready() && EffectValid(e)
      modifies this, b
      ensures b.Valid()
      ensures !ok ==> b.Exhausted()
      ensures b.work <= old(b.work) + OperationCost(old(retained))
      ensures ok ==> retained + 1 <= 129 * (old(retained) + 1)
      ensures ok ==> Ready() && facts == AfterEffect(old(facts), e)
      ensures ok ==> b.facts - retained == old(b.facts - retained)
    {
      hide Consistent, HistoryKept, Size, Times, ScanCost, OperationCost, Cleared, Overwritten, Moved, FlowBudget.Exhausted;
      OperationCosts(retained);
      match e.kind {
        case Copy =>
          ok := CopyEffect(e);
          if !ok { return; }
        case Swap =>
          ok := SwapEffect(e);
          if !ok { return; }
        case Kill =>
          ok := Clear(e.dst, e.size);
          if !ok { return; }
        case Call =>
          ok := CallEffect();
          if !ok { return; }
        case Read =>
          return true;
      }
      if e.clearTo > e.size {
        ok := Clear(e.dst.Next(e.size), e.clearTo - e.size);
      }
    }

    /** A canonical constant keeps its other aliases. */
    method DefineConstant(loc: Location, id: nat, width: nat) returns (ok: bool)
      requires Ready() && ValidCarrier(loc, width, false) && id != 0
      modifies this, b
      ensures b.Valid()
      ensures !ok ==> b.Exhausted()
      ensures b.work <= old(b.work) + 256 * (old(retained) + 1)
      ensures ok ==> retained <= old(retained) + 64
      ensures ok ==> Ready() && facts == AfterConstant(old(facts), loc, id, width)
      ensures ok ==> b.facts - retained == old(b.facts - retained)
    {
      hide Consistent, HistoryKept, Size, Times, ScanCost, OperationCost;
      ok := Clear(loc, width);
      if !ok { return; }
      for i := 0 to width
        invariant ok && Ready() && b.facts - retained == old(b.facts - retained)
        invariant facts == Cleared(old(facts), loc, width) + Carried(loc, id, i)
        invariant b.work <= old(b.work) + 128 * (old(retained) + 1) + 2 * i
        invariant retained <= old(retained) + i
      {
        ok := Add(loc.Next(i), Symbol(id, i));
        if !ok { return; }
        assert Carried(loc, id, i + 1) == Carried(loc, id, i) + {Fact(loc.Next(i), Symbol(id, i))};
      }
    }

    /** A definition first drops the previous iteration's aliases. */
    method Define(loc: Location, id: nat, width: nat) returns (ok: bool)
      requires Ready() && ValidCarrier(loc, width, false) && id != 0
      modifies this, b
      ensures b.Valid()
      ensures !ok ==> b.Exhausted()
      ensures b.work <= old(b.work) + 385 * (old(retained) + 1)
      ensures ok ==> retained <= old(retained) + 64
      ensures ok ==> Ready() && facts == AfterDefine(old(facts), loc, id, width)
      ensures ok ==> b.facts - retained == old(b.facts - retained)
    {
      hide Consistent, HistoryKept, Size, Times, ScanCost, OperationCost;
      ok := Forget(id);
      if !ok { return; }
      ok := DefineConstant(loc, id, width);
    }

    /** Simultaneous edge renaming: snapshot all sources, forget all targets, restore. */
    method Parameters(ps: seq<Parameter>) returns (ok: bool)
      requires Ready() && forall p :: p in ps ==> p.to != 0
      modifies this, b
      ensures b.Valid()
      ensures !ok ==> b.Exhausted()
      ensures b.work <= old(b.work) + Times(|ps|, 400 * (old(retained) + 1))
      ensures ok ==> retained + 1 <= old(retained) + 1 + Times(|ps|, 64 * (old(retained) + 1))
      ensures ok ==> Ready() && facts == AfterParameters(old(facts), ps)
      ensures ok ==> b.facts - retained == old(b.facts - retained)
    {
      hide Consistent, HistoryKept, Size, Times, ScanCost, OperationCost;
      FactsAdmissible();
      ParameterCosts(|ps|, retained + 1);
      var saved;
      ok, saved := RenameSources(ps);
      if !ok { return; }
      ok := ForgetTargets(ps);
      if !ok { return; }
      ok := Restore(saved);
    }

    method RenameSources(ps: seq<Parameter>) returns (ok: bool, saved: seq<Fact>)
      requires Ready()
      modifies b
      ensures b.Valid()
      ensures !ok ==> b.Exhausted()
      ensures b.work <= old(b.work) + Times(|ps|, 130 * (retained + 1))
      ensures ok ==> b.facts == old(b.facts) + |saved| && |saved| <= Times(|ps|, 64 * (retained + 1))
      ensures ok ==> forall f :: f in saved <==> f in RenamedTo(facts, ps)
    {
      hide Consistent, HistoryKept, Size, Times, ScanCost, OperationCost;
      ok, saved := true, [];
      TimesNext(0, 130 * (retained + 1));
      TimesNext(0, 64 * (retained + 1));
      for k := 0 to |ps|
        invariant ok && b.Valid() && b.facts == old(b.facts) + |saved|
        invariant forall f :: f in saved <==> f in RenamedTo(facts, ps[..k])
        invariant b.work <= old(b.work) + Times(k, 130 * (retained + 1)) && |saved| <= Times(k, 64 * (retained + 1))
      {
        RenameRound(k, |ps|, retained + 1);
        ok := b.Charge(1);
        if !ok { return; }
        ok, saved := RenameSnapshot(ps[k], saved);
        if !ok { return; }
        RenamedToStep(facts, ps, k);
      }
      assert ps[..|ps|] == ps;
    }

    method ForgetTargets(ps: seq<Parameter>) returns (ok: bool)
      requires Ready()
      modifies this, b
      ensures b.Valid()
      ensures !ok ==> b.Exhausted()
      ensures b.work <= old(b.work) + Times(|ps|, 130 * (old(retained) + 1))
      ensures ok ==> Ready() && facts == Unrenamed(old(facts), ps)
      ensures ok ==> b.facts == old(b.facts) && retained == old(retained)
    {
      hide Consistent, HistoryKept, Size, Times, ScanCost, OperationCost;
      ok := true;
      TimesNext(0, 130 * (retained + 1));
      for k := 0 to |ps|
        invariant ok && Ready() && b.facts == old(b.facts) && retained == old(retained)
        invariant facts == Unrenamed(old(facts), ps[..k])
        invariant b.work <= old(b.work) + Times(k, 130 * (retained + 1))
      {
        RenameRound(k, |ps|, retained + 1);
        ok := b.Charge(1);
        if !ok { return; }
        ok := Forget(ps[k].to);
        if !ok { return; }
        UnrenamedStep(old(facts), ps, k);
      }
      assert ps[..|ps|] == ps;
    }

    method RenameSnapshot(p: Parameter, saved: seq<Fact>) returns (ok: bool, out: seq<Fact>)
      requires Ready()
      modifies b
      ensures b.Valid()
      ensures !ok ==> b.Exhausted()
      ensures b.work <= old(b.work) + 129 * retained
      ensures ok ==> |out| <= |saved| + 64 * retained
      ensures ok ==> b.facts == old(b.facts) + |out| - |saved| && |out| >= |saved|
      ensures ok ==> forall f :: f in out <==> f in saved || f in RenamedTo(facts, [p])
    {
      hide Consistent, HistoryKept, Size, Times, ScanCost, OperationCost;
      var index := IndexOf(ids, p.from);
      IndexLocations(p.from);
      ScanCosts(Location(GP, 0, 0), p.from);
      ok, out := true, saved;
      if index.locations == map[] { return; }
      ok := b.Charge(index.history);
      if !ok { return; }
      var todo := index.locations.Keys;
      while todo != {}
        invariant ok && b.Valid() && todo <= index.locations.Keys
        invariant b.facts == old(b.facts) + |out| - |saved| && |out| >= |saved|
        invariant forall f :: f in out <==> f in saved || (f in RenamedTo(facts, [p]) && f.loc !in todo)
        invariant b.work <= old(b.work) + index.history + 128 * (Size(index.locations.Keys) - Size(todo))
        invariant |out| <= |saved| + 64 * (Size(index.locations.Keys) - Size(todo))
        decreases todo
      {
        var loc :| loc in todo;
        SizeRemove(todo, loc);
        ok, out := RenameSnapshotAt(p, loc, index.locations[loc], out);
        if !ok { return; }
        todo := todo - {loc};
      }
      assert forall f :: f in RenamedTo(facts, [p]) ==> f.loc in index.locations;
    }

    method RenameSnapshotAt(p: Parameter, loc: Location, parts: nat, saved: seq<Fact>) returns (ok: bool, out: seq<Fact>)
      requires b.Valid() && Valid()
      requires forall part :: Bits.Test(parts, part) <==> Fact(loc, Symbol(p.from, part)) in facts
      modifies b
      ensures b.Valid()
      ensures !ok ==> b.Exhausted()
      ensures b.work <= old(b.work) + 128
      ensures ok ==> |out| <= |saved| + 64
      ensures ok ==> b.facts == old(b.facts) + |out| - |saved| && |out| >= |saved|
      ensures ok ==> forall f :: f in out <==> f in saved || (f in RenamedTo(facts, [p]) && f.loc == loc)
    {
      hide Consistent, HistoryKept, Size, Times, ScanCost, OperationCost;
      MaskBits(p.from, loc, parts);
      ok, out := true, saved;
      for part := 0 to Max(16, Bits.Len(parts))
        invariant ok && b.Valid() && b.facts == old(b.facts) + |out| - |saved| && |out| >= |saved|
        invariant forall f :: f in out <==> f in saved || (f.loc == loc && f.sym.id == p.to && f.sym.part < part && Bits.Test(parts, f.sym.part))
        invariant b.work <= old(b.work) + 2 * part
        invariant |out| <= |saved| + part
      {
        ok := b.Charge(1);
        if !ok { return; }
        if Bits.Test(parts, part) {
          ok := b.AddFact();
          if !ok { return; }
          out := out + [Fact(loc, Symbol(p.to, part))];
        }
      }
      forall f ensures f in RenamedTo(facts, [p]) && f.loc == loc <==>
                       f.loc == loc && f.sym.id == p.to && f.sym.part < Max(16, Bits.Len(parts)) && Bits.Test(parts, f.sym.part)
      {
        RenamedToOne(facts, p, f);
        if Bits.Test(parts, f.sym.part) { Bits.TestBelowLen(parts, f.sym.part); }
      }
    }
  }

  lemma MovedAdmissible(s: set<Fact>, src: Location, dst: Location, size: nat)
    requires (forall f :: f in s ==> Admissible(f)) && !dst.bank.Unknown?
    ensures forall f :: f in Moved(s, src, dst, size) ==> Admissible(f)
  {
  }

  /** The facts that a renaming adds, and those that it keeps. */
  function RenamedTo(s: set<Fact>, ps: seq<Parameter>): set<Fact> {
    set f, p | f in s && p in ps && p.from == f.sym.id :: Fact(f.loc, Symbol(p.to, f.sym.part))
  }

  function Unrenamed(s: set<Fact>, ps: seq<Parameter>): set<Fact> {
    set f | f in s && forall p :: p in ps ==> p.to != f.sym.id
  }

  lemma RenamedToOne(s: set<Fact>, p: Parameter, f: Fact)
    ensures f in RenamedTo(s, [p]) <==> f.sym.id == p.to && Fact(f.loc, Symbol(p.from, f.sym.part)) in s
  {
    var g := Fact(f.loc, Symbol(p.from, f.sym.part));
    if g in s && f.sym.id == p.to {
      assert p in [p] && Fact(g.loc, Symbol(p.to, g.sym.part)) == f;
    }
  }

  lemma RenamedToStep(s: set<Fact>, ps: seq<Parameter>, k: nat)
    requires k < |ps|
    ensures RenamedTo(s, ps[..k + 1]) == RenamedTo(s, ps[..k]) + RenamedTo(s, [ps[k]])
  {
    assert forall p :: p in ps[..k + 1] <==> p in ps[..k] || p in [ps[k]];
  }

  lemma UnrenamedStep(s: set<Fact>, ps: seq<Parameter>, k: nat)
    requires k < |ps|
    ensures Unrenamed(s, ps[..k + 1]) == Forgotten(Unrenamed(s, ps[..k]), ps[k].to)
  {
    assert forall p :: p in ps[..k + 1] <==> p in ps[..k] || p == ps[k];
  }

  /** Facts about none of the first `n` bytes. */
  ghost function ClearedBytes(s: set<Fact>, loc: Location, n: nat): set<Fact> {
    set f | f in s && forall j {:trigger loc.Next(j)} :: 0 <= j < n ==> f.loc != loc.Next(j)
  }

  lemma ClearedByBytes(s: set<Fact>, loc: Location, size: nat)
    requires ValidCarrier(loc, size, false)
    ensures ClearedBytes(s, loc, size) == Cleared(s, loc, size)
  {
    forall f | f in s
      ensures loc.Covers(size, f.loc) <==> exists i :: 0 <= i < size && f.loc == loc.Next(i)
    {
      CarrierBytes(loc, size, f.loc);
    }
  }

  ghost predicate MovedBelow(s: set<Fact>, src: Location, dst: Location, n: nat, f: Fact) {
    exists j :: 0 <= j < n && Fact(src.Next(j), f.sym) in s && f.loc == dst.Next(j)
  }

  lemma MovedByStep(s: set<Fact>, src: Location, dst: Location, size: nat, f: Fact)
    requires Known(s) && ValidCarrier(src, size, true) && ValidCarrier(dst, size, false)
    ensures f in Moved(s, src, dst, size) <==> MovedBelow(s, src, dst, size, f)
  {
    MovedMember(s, src, dst, size, f);
    if dst.Covers(size, f.loc) {
      CarrierBytes(dst, size, f.loc);
    }
    if j :| 0 <= j < size && Fact(src.Next(j), f.sym) in s && f.loc == dst.Next(j) {
      CarrierStep(dst, size, j);
    }
  }
}
