/**
 Graph.validate: the metered admission check of a graph.  It accepts exactly the well-formed
 graphs that fit the block, value and operation limits.
 */
module Validation {
  import opened Transfers
  import opened Facts
  import opened FlowImages
  import opened FiniteSets

  datatype Complaint =
    | NoComplaint | BadBlocks | ValueLimit | BadWidth | BadConstants | OperationLimit
    | BadInput | BadOperation | BadEdge | BadParameter

  /** A limit left at zero takes its default value. */
  function ResolveLimit(l: int, d: int): int {
    if l == 0 then d else l
  }

  predicate LimitsValid(l: Limits) {
    l.blocks >= 0 && l.values >= 0 && l.operations >= 0 && l.facts >= 0 && l.work >= 0
  }

  function ResolveLimits(l: Limits): Limits {
    Limits(ResolveLimit(l.blocks, DEFAULT_LIMITS.blocks),
           ResolveLimit(l.values, DEFAULT_LIMITS.values),
           ResolveLimit(l.operations, DEFAULT_LIMITS.operations),
           ResolveLimit(l.facts, DEFAULT_LIMITS.facts),
           ResolveLimit(l.work, DEFAULT_LIMITS.work))
  }

  function ParameterCount(edges: seq<Edge>): nat {
    if edges == [] then 0 else ParameterCount(edges[..|edges| - 1]) + |edges[|edges| - 1].parameters|
  }

  function BlockCount(b: Block): nat {
    |b.operations| + |b.edges| + ParameterCount(b.edges)
  }

  function OperationCount(blocks: seq<Block>): nat {
    if blocks == [] then 0 else OperationCount(blocks[..|blocks| - 1]) + BlockCount(blocks[|blocks| - 1])
  }

  predicate WithinLimits(g: Graph, l: Limits) {
    && |g.blocks| <= l.blocks
    && |g.widths| <= l.values
    && |g.inputs| + OperationCount(g.blocks) <= l.operations
  }

  /** No single admission charge is larger. */
  function GraphSize(g: Graph): nat {
    |g.widths| + 1 + |g.inputs| + OperationCount(g.blocks)
  }

  lemma {:induction false} OperationCountMonotone(blocks: seq<Block>, k: nat)
    requires k <= |blocks|
    ensures OperationCount(blocks[..k]) <= OperationCount(blocks)
  {
    if k < |blocks| {
      var init := blocks[..|blocks| - 1];
      OperationCountMonotone(init, k);
      assert init[..k] == blocks[..k];
    } else {
      assert blocks[..k] == blocks;
    }
  }

  lemma {:induction false} ParameterCountMonotone(edges: seq<Edge>, k: nat)
    requires k <= |edges|
    ensures ParameterCount(edges[..k]) <= ParameterCount(edges)
  {
    if k < |edges| {
      var init := edges[..|edges| - 1];
      ParameterCountMonotone(init, k);
      assert init[..k] == edges[..k];
    } else {
      assert edges[..k] == edges;
    }
  }

  /** Distinct classified constants never outnumber the values. */
  lemma ConstantsFit(g: Graph)
    requires forall i :: 0 <= i < |g.constants| ==> g.Width(g.constants[i]) != 0
    requires forall i, j :: 0 <= i < j < |g.constants| ==> g.constants[i] != g.constants[j]
    ensures |g.constants| <= |g.widths|
  {
    var s := seq(|g.constants|, i requires 0 <= i < |g.constants| => g.constants[i] - 1);
    assert forall x :: x in s ==> 0 <= x < |g.widths|;
    assert Distinct(s);
    DistinctBelow(s, |g.widths|);
  }

  method CheckWidths(g: Graph, b: FlowBudget) returns (ok: bool, good: bool)
    requires b.Valid()
    modifies b
    ensures b.Valid() && b.facts == old(b.facts)
    ensures !ok ==> b.work == b.limits.work
    ensures b.work <= old(b.work) + |g.widths|
    ensures ok ==> (good <==> forall i :: 0 <= i < |g.widths| ==> 1 <= g.widths[i] <= MAX_CARRIER_BYTES)
  {
    ok, good := true, true;
    for i := 0 to |g.widths|
      invariant ok && good && b.Valid() && b.facts == old(b.facts)
      invariant b.work <= old(b.work) + i
      invariant forall j :: 0 <= j < i ==> 1 <= g.widths[j] <= MAX_CARRIER_BYTES
    {
      ok := b.Charge(1);
      if !ok { return; }
      if g.widths[i] == 0 || g.widths[i] > MAX_CARRIER_BYTES { return true, false; }
    }
  }

  /** The classification table, indexed by value identity; empty without constants. */
  method ClassifyConstants(g: Graph, b: FlowBudget) returns (ok: bool, good: bool, table: array<bool>)
    requires b.Valid()
    modifies b
    ensures b.Valid() && b.facts == old(b.facts) && fresh(table)
    ensures !ok ==> b.work + |g.widths| + 1 > b.limits.work
    ensures b.work <= old(b.work) + 2 * |g.widths| + 1
    ensures ok ==>
      (good <==>
        && (forall i :: 0 <= i < |g.constants| ==> g.Width(g.constants[i]) != 0)
        && (forall i, j :: 0 <= i < j < |g.constants| ==> g.constants[i] != g.constants[j]))
    ensures ok && good ==> forall id: nat :: IsConstant(table, id) <==> id in g.constants
  {
    ok, good := true, true;
    table := new bool[0];
    if |g.constants| > |g.widths| {
      if (forall i :: 0 <= i < |g.constants| ==> g.Width(g.constants[i]) != 0)
         && (forall i, j :: 0 <= i < j < |g.constants| ==> g.constants[i] != g.constants[j]) {
        ConstantsFit(g);
      }
      return true, false, table;
    }
    if |g.constants| == 0 { return; }
    ok := b.Charge(|g.widths| + 1);
    if !ok { return; }
    table := new bool[|g.widths| + 1](_ => false);
    for k := 0 to |g.constants|
      invariant ok && good && b.Valid() && b.facts == old(b.facts)
      invariant b.work <= old(b.work) + |g.widths| + 1 + k
      invariant forall i :: 0 <= i < k ==> g.Width(g.constants[i]) != 0
      invariant forall i, j :: 0 <= i < j < k ==> g.constants[i] != g.constants[j]
      invariant forall id: nat :: id < table.Length ==> (table[id] <==> id in g.constants[..k])
    {
      ok := b.Charge(1);
      if !ok { return; }
      var id := g.constants[k];
      if g.Width(id) == 0 || table[id] { return true, false, table; }
      table[id] := true;
    }
    assert g.constants[..|g.constants|] == g.constants;
    assert forall id :: id in g.constants ==> g.Width(id) != 0;
  }

  predicate IsConstant(table: array<bool>, id: nat)
    reads table
  {
    table.Length != 0 && id < table.Length && table[id]
  }

  /** Takes `n` from the operation allowance and charges it as work. */
  method Consume(n: nat, remaining: int, b: FlowBudget) returns (ok: bool, fits: bool, left: int)
    requires b.Valid()
    modifies b
    ensures b.Valid() && b.facts == old(b.facts)
    ensures !ok ==> b.work + n > b.limits.work
    ensures b.work <= old(b.work) + n
    ensures ok ==> (fits <==> n <= remaining) && left == if fits then remaining - n else remaining
  {
    ok, fits, left := true, n <= remaining, remaining;
    if fits {
      left := remaining - n;
      ok := b.Charge(n);
    }
  }

  method OperationAdmitted(g: Graph, op: Operation, table: array<bool>) returns (good: bool)
    requires forall id: nat :: IsConstant(table, id) <==> id in g.constants
    ensures good <==> OperationValid(g, op)
  {
    if op.Machine? {
      good := MachineEffect(op.effect);
      return;
    }
    if op.Unsupported? { return true; }
    var w := g.Width(op.value);
    good := FlowLocation(op.location, w, false);
    if !good { return; }
    if op.location.bank.ReturnArea?
       && !(op.Use? && op.location.index == 0 && op.location.byte == 0 && (w == 4 || w == 8)) {
      return false;
    }
    var constant := IsConstant(table, op.value);
    good := !((op.DefineConstant? && !constant) || (op.Define? && constant));
  }

  method EdgeAdmitted(g: Graph, e: Edge, table: array<bool>) returns (good: bool)
    requires 0 <= e.to < |g.blocks|
    requires forall id: nat :: IsConstant(table, id) <==> id in g.constants
    ensures good <==> EdgeValid(g, e)
  {
    var seen: set<nat> := {};
    for k := 0 to |e.parameters|
      invariant forall j :: 0 <= j < k ==> ParameterValid(g, e.parameters[j])
      invariant forall i, j :: 0 <= i < j < k ==> e.parameters[i].to != e.parameters[j].to
      invariant forall id :: id in seen <==> exists j :: 0 <= j < k && e.parameters[j].to == id
    {
      var p := e.parameters[k];
      var carried := FlowLocation(p.location, g.Width(p.from), false);
      if g.Width(p.from) == 0 || g.Width(p.from) != g.Width(p.to) || p.to in seen || IsConstant(table, p.to)
         || p.location.bank.ReturnArea? || !carried {
        assert p.to in seen || !ParameterValid(g, e.parameters[k]);
        return false;
      }
      seen := seen + {p.to};
    }
    good := true;
  }

  method CheckBlock(g: Graph, block: Block, table: array<bool>, remaining: int, b: FlowBudget)
    returns (ok: bool, why: Complaint, left: int)
    requires b.Valid() && remaining >= 0 && forall id: nat :: IsConstant(table, id) <==> id in g.constants
    modifies b
    ensures b.Valid() && b.facts == old(b.facts)
    ensures !ok ==> b.work + BlockCount(block) + 1 > b.limits.work
    ensures b.work <= old(b.work) + 1 + BlockCount(block)
    ensures ok ==> (why.NoComplaint? <==> BlockValid(g, block) && BlockCount(block) <= remaining)
    ensures ok && why.NoComplaint? ==> left == remaining - BlockCount(block)
    ensures ok && why.OperationLimit? ==> BlockCount(block) > remaining
    ensures ok && !why.NoComplaint? && !why.OperationLimit? ==> !BlockValid(g, block) && !why.ValueLimit?
  {
    why, left := NoComplaint, remaining;
    ok := b.Charge(1);
    if !ok { return; }
    var fits;
    ok, fits, left := Consume(|block.operations|, left, b);
    if !ok { return; }
    if !fits { return true, OperationLimit, left; }
    ok, fits, left := Consume(|block.edges|, left, b);
    if !ok { return; }
    if !fits { return true, OperationLimit, left; }
    for i := 0 to |block.operations|
      invariant b.Valid() && b.facts == old(b.facts)
      invariant b.work <= old(b.work) + 1 + |block.operations| + |block.edges|
      invariant forall j :: 0 <= j < i ==> OperationValid(g, block.operations[j])
    {
      var good := OperationAdmitted(g, block.operations[i], table);
      if !good { return true, BadOperation, left; }
    }
    ok, why, left := CheckEdges(g, block.edges, table, left, b);
  }

  method CheckEdges(g: Graph, edges: seq<Edge>, table: array<bool>, remaining: int, b: FlowBudget)
    returns (ok: bool, why: Complaint, left: int)
    requires b.Valid() && remaining >= 0 && forall id: nat :: IsConstant(table, id) <==> id in g.constants
    modifies b
    ensures b.Valid() && b.facts == old(b.facts)
    ensures !ok ==> b.work + ParameterCount(edges) > b.limits.work
    ensures b.work <= old(b.work) + ParameterCount(edges)
    ensures ok ==> (why.NoComplaint? <==> (forall k :: 0 <= k < |edges| ==> EdgeValid(g, edges[k])) && ParameterCount(edges) <= remaining)
    ensures ok && why.NoComplaint? ==> left == remaining - ParameterCount(edges)
    ensures ok && why.OperationLimit? ==> ParameterCount(edges) > remaining
    ensures ok && !why.NoComplaint? && !why.OperationLimit? ==>
              !why.ValueLimit? && exists k :: 0 <= k < |edges| && !EdgeValid(g, edges[k])
  {
    ok, why, left := true, NoComplaint, remaining;
    for k := 0 to |edges|
      invariant ok && why.NoComplaint? && b.Valid() && b.facts == old(b.facts)
      invariant b.work <= old(b.work) + ParameterCount(edges[..k])
      invariant forall j :: 0 <= j < k ==> EdgeValid(g, edges[j])
      invariant left == remaining - ParameterCount(edges[..k]) && left >= 0
    {
      var e := edges[k];
      assert edges[..k + 1][..k] == edges[..k];
      ParameterCountMonotone(edges, k + 1);
      if e.to < 0 || e.to >= |g.blocks| { return true, BadEdge, left; }
      var fits;
      ok, fits, left := Consume(|e.parameters|, left, b);
      if !ok { return; }
      if !fits { return true, OperationLimit, left; }
      var good := EdgeAdmitted(g, e, table);
      if !good { return true, BadParameter, left; }
    }
    assert edges[..|edges|] == edges;
  }

  /** Admission: accepts exactly the well-formed graphs within the limits. */
  method Validate(g: Graph, b: FlowBudget) returns (ok: bool, why: Complaint)
    requires b.Valid()
    modifies b
    ensures b.Valid() && b.facts == old(b.facts)
    ensures !ok ==> b.work + GraphSize(g) >= b.limits.work
    ensures b.work <= old(b.work) + 3 * GraphSize(g) + |g.blocks|
    ensures ok ==> (why.NoComplaint? <==> WellFormed(g) && WithinLimits(g, b.limits))
    ensures ok && (why.ValueLimit? || why.OperationLimit?) ==> !WithinLimits(g, b.limits)
    ensures ok && !why.NoComplaint? && !why.ValueLimit? && !why.OperationLimit? ==> !WellFormed(g) || |g.blocks| > b.limits.blocks
  {
    ok, why := true, NoComplaint;
    if |g.blocks| == 0 || |g.blocks| > b.limits.blocks || g.entry < 0 || g.entry >= |g.blocks| { return true, BadBlocks; }
    if |g.widths| > b.limits.values { return true, ValueLimit; }
    var good;
    ok, good := CheckWidths(g, b);
    if !ok { return; }
    if !good { return true, BadWidth; }
    var table;
    ok, good, table := ClassifyConstants(g, b);
    if !ok { return; }
    if !good { return true, BadConstants; }
    ok, why := CheckBody(g, table, b);
  }

  predicate BodyValid(g: Graph) {
    && (forall i :: 0 <= i < |g.inputs| ==> InputValid(g, g.inputs[i]))
    && (forall k :: 0 <= k < |g.blocks| ==> BlockValid(g, g.blocks[k]))
  }

  /** Inputs, then block by block, against one operation allowance. */
  method CheckBody(g: Graph, table: array<bool>, b: FlowBudget) returns (ok: bool, why: Complaint)
    requires b.Valid() && forall id: nat :: IsConstant(table, id) <==> id in g.constants
    modifies b
    ensures b.Valid() && b.facts == old(b.facts)
    ensures !ok ==> b.work + GraphSize(g) >= b.limits.work
    ensures b.work <= old(b.work) + |g.inputs| + OperationCount(g.blocks) + |g.blocks|
    ensures ok ==> (why.NoComplaint? <==> BodyValid(g) && |g.inputs| + OperationCount(g.blocks) <= b.limits.operations)
    ensures ok && why.OperationLimit? ==> |g.inputs| + OperationCount(g.blocks) > b.limits.operations
    ensures ok && !why.NoComplaint? && !why.OperationLimit? ==> !BodyValid(g) && !why.ValueLimit?
  {
    var fits, left;
    why := NoComplaint;
    ok, fits, left := Consume(|g.inputs|, b.limits.operations, b);
    if !ok { return; }
    if !fits { return true, OperationLimit; }
    var good := InputsAdmitted(g);
    if !good { return true, BadInput; }
    ok, why := CheckBlocks(g, table, left, b);
  }

  method InputsAdmitted(g: Graph) returns (good: bool)
    ensures good <==> forall i :: 0 <= i < |g.inputs| ==> InputValid(g, g.inputs[i])
  {
    for i := 0 to |g.inputs|
      invariant forall j :: 0 <= j < i ==> InputValid(g, g.inputs[j])
    {
      var carried := FlowLocation(g.inputs[i].location, g.Width(g.inputs[i].value), false);
      if g.inputs[i].location.bank.ReturnArea? || !carried {
        assert !InputValid(g, g.inputs[i]);
        return false;
      }
    }
    good := true;
  }

  method CheckBlocks(g: Graph, table: array<bool>, remaining: int, b: FlowBudget) returns (ok: bool, why: Complaint)
    requires b.Valid() && remaining >= 0 && forall id: nat :: IsConstant(table, id) <==> id in g.constants
    modifies b
    ensures b.Valid() && b.facts == old(b.facts)
    ensures !ok ==> b.work + OperationCount(g.blocks) + 1 > b.limits.work
    ensures b.work <= old(b.work) + OperationCount(g.blocks) + |g.blocks|
    ensures ok ==> (why.NoComplaint? <==> (forall k :: 0 <= k < |g.blocks| ==> BlockValid(g, g.blocks[k])) && OperationCount(g.blocks) <= remaining)
    ensures ok && why.OperationLimit? ==> OperationCount(g.blocks) > remaining
    ensures ok && !why.NoComplaint? && !why.OperationLimit? ==>
              !why.ValueLimit? && exists k :: 0 <= k < |g.blocks| && !BlockValid(g, g.blocks[k])
  {
    hide BlockValid;
    ok, why := true, NoComplaint;
    var left := remaining;
    for k := 0 to |g.blocks|
      invariant ok && why.NoComplaint? && b.Valid() && b.facts == old(b.facts)
      invariant b.work <= old(b.work) + OperationCount(g.blocks[..k]) + k
      invariant forall j :: 0 <= j < k ==> BlockValid(g, g.blocks[j])
      invariant left == remaining - OperationCount(g.blocks[..k]) && left >= 0
    {
      assert g.blocks[..k + 1][..k] == g.blocks[..k];
      OperationCountMonotone(g.blocks, k + 1);
      ok, why, left := CheckBlock(g, g.blocks[k], table, left, b);
      if !ok || !why.NoComplaint? { return; }
    }
    assert g.blocks[..|g.blocks|] == g.blocks;
  }
}
