/**
 The must-fact analysis of internal/regalloccheck on plain sets: a fact says that a byte
 location carries one byte of a semantic value.  Each operation is a forward transformer on
 sets of facts; the origins give the one earlier fact on which a later fact depends.
 */
module Facts {
  import opened Transfers

  /** Byte `part` of the semantic value `id`; identity 0 stands for no value. */
  datatype Symbol = Symbol(id: nat, part: nat)
  datatype Fact = Fact(loc: Location, sym: Symbol)

  datatype Operation =
    | Machine(effect: Effect)
    | Define(location: Location, value: nat)
    | Use(location: Location, value: nat)
    | Unsupported
    | DefineConstant(location: Location, value: nat)

  datatype Binding = Binding(location: Location, value: nat)
  datatype Parameter = Parameter(from: nat, to: nat, location: Location)
  datatype Edge = Edge(to: int, parameters: seq<Parameter>)
  datatype Block = Block(operations: seq<Operation>, edges: seq<Edge>)

  datatype Graph = Graph(widths: seq<UInt8>, constants: seq<nat>, blocks: seq<Block>, entry: int, inputs: seq<Binding>) {
    function Width(id: nat): UInt8 {
      if id == 0 || id > |widths| then 0 else widths[id - 1]
    }
  }

  /* ---------- Admitted graphs ---------- */

  predicate ReturnAreaUseValid(op: Operation, width: int) {
    op.Use? && op.location == RETURN_AREA && (width == 4 || width == 8)
  }

  predicate OperationValid(g: Graph, op: Operation) {
    match op
    case Machine(e) => EffectValid(e)
    case Unsupported => true
    case _ =>
      && ValidCarrier(op.location, g.Width(op.value), false)
      && (op.location.bank.ReturnArea? ==> ReturnAreaUseValid(op, g.Width(op.value)))
      && (op.DefineConstant? ==> op.value in g.constants)
      && (op.Define? ==> op.value !in g.constants)
  }

  predicate ParameterValid(g: Graph, p: Parameter) {
    && g.Width(p.from) != 0
    && g.Width(p.from) == g.Width(p.to)
    && p.to !in g.constants
    && !p.location.bank.ReturnArea?
    && ValidCarrier(p.location, g.Width(p.from), false)
  }

  predicate EdgeValid(g: Graph, e: Edge) {
    && 0 <= e.to < |g.blocks|
    && (forall k :: 0 <= k < |e.parameters| ==> ParameterValid(g, e.parameters[k]))
    && (forall j, k :: 0 <= j < k < |e.parameters| ==> e.parameters[j].to != e.parameters[k].to)
  }

  predicate BlockValid(g: Graph, b: Block) {
    && (forall i :: 0 <= i < |b.operations| ==> OperationValid(g, b.operations[i]))
    && (forall k :: 0 <= k < |b.edges| ==> EdgeValid(g, b.edges[k]))
  }

  predicate InputValid(g: Graph, b: Binding) {
    !b.location.bank.ReturnArea? && ValidCarrier(b.location, g.Width(b.value), false)
  }

  /** Everything Graph.validate demands, leaving aside resource limits. */
  predicate WellFormed(g: Graph) {
    && 0 <= g.entry < |g.blocks|
    && (forall i :: 0 <= i < |g.widths| ==> 1 <= g.widths[i] <= MAX_CARRIER_BYTES)
    && (forall i :: 0 <= i < |g.constants| ==> g.Width(g.constants[i]) != 0)
    && (forall i, j :: 0 <= i < j < |g.constants| ==> g.constants[i] != g.constants[j])
    && (forall i :: 0 <= i < |g.inputs| ==> InputValid(g, g.inputs[i]))
    && (forall b :: 0 <= b < |g.blocks| ==> BlockValid(g, g.blocks[b]))
  }

  /* ---------- Forward transformers ---------- */

  function Cleared(s: set<Fact>, loc: Location, size: nat): set<Fact> {
    set f | f in s && !loc.Covers(size, f.loc)
  }

  /** The facts about `size` bytes at `src`, restated at `dst`. */
  function Moved(s: set<Fact>, src: Location, dst: Location, size: nat): set<Fact> {
    set f | f in s && src.Covers(size, f.loc) :: Fact(dst.Next(Max(0, src.Offset(f.loc))), f.sym)
  }

  /** Overwriting a carrier also loses the zero-extended half of a general-purpose register. */
  function Overwritten(s: set<Fact>, loc: Location, size: nat): set<Fact> {
    if ZeroExtends(loc, size) then Cleared(Cleared(s, loc, size), loc.Next(4), 4) else Cleared(s, loc, size)
  }

  function AfterEffect(s: set<Fact>, e: Effect): set<Fact>
    requires EffectValid(e)
  {
    match e.kind
    case Copy =>
      ClearedTail(Overwritten(s, e.dst, e.size) + Moved(s, e.src, e.dst, e.size), e)
    case Swap =>
      Overwritten(Overwritten(s, e.src, e.size), e.dst, e.size)
      + Moved(s, e.src, e.dst, e.size) + Moved(s, e.dst, e.src, e.size)
    case Kill => ClearedTail(Cleared(s, e.dst, e.size), e)
    case Call => set f | f in s && f.loc.bank.Frame?
    case Read => s
  }

  /** The bytes after the written ones, up to `clearTo`, become unknown. */
  function ClearedTail(s: set<Fact>, e: Effect): set<Fact>
    requires e.size >= 0
  {
    if e.clearTo > e.size then Cleared(s, e.dst.Next(e.size), e.clearTo - e.size) else s
  }

  function Forgotten(s: set<Fact>, id: nat): set<Fact> {
    set f | f in s && f.sym.id != id
  }

  function Carried(loc: Location, id: nat, width: nat): set<Fact> {
    set i | 0 <= i < width :: Fact(loc.Next(i), Symbol(id, i))
  }

  function AfterConstant(s: set<Fact>, loc: Location, id: nat, width: nat): set<Fact> {
    Cleared(s, loc, width) + Carried(loc, id, width)
  }

  function AfterDefine(s: set<Fact>, loc: Location, id: nat, width: nat): set<Fact> {
    AfterConstant(Forgotten(s, id), loc, id, width)
  }

  /** Simultaneous renaming on an edge. */
  function AfterParameters(s: set<Fact>, ps: seq<Parameter>): set<Fact> {
    (set f | f in s && forall p :: p in ps ==> p.to != f.sym.id)
    + (set f, p | f in s && p in ps && p.from == f.sym.id :: Fact(f.loc, Symbol(p.to, f.sym.part)))
  }

  function AfterOperation(g: Graph, s: set<Fact>, op: Operation): set<Fact>
    requires OperationValid(g, op)
  {
    match op
    case Machine(e) => AfterEffect(s, e)
    case Define(loc, v) => AfterDefine(s, loc, v, g.Width(v))
    case DefineConstant(loc, v) => AfterConstant(s, loc, v, g.Width(v))
    case Use(_, _) => s
    case Unsupported => s
  }

  function AfterOperations(g: Graph, s: set<Fact>, ops: seq<Operation>): set<Fact>
    requires forall i :: 0 <= i < |ops| ==> OperationValid(g, ops[i])
  {
    if ops == [] then s
    else AfterOperation(g, AfterOperations(g, s, ops[..|ops| - 1]), ops[|ops| - 1])
  }

  /* ---------- Known locations ---------- */

  /** No fact is about an untracked address or about the absent value. */
  ghost predicate Known(s: set<Fact>) {
    forall f :: f in s ==> !f.loc.bank.Unknown? && f.sym.id != 0
  }

  lemma AfterEffectKnown(s: set<Fact>, e: Effect)
    requires Known(s) && EffectValid(e)
    ensures Known(AfterEffect(s, e))
  {
  }

  lemma AfterOperationKnown(g: Graph, s: set<Fact>, op: Operation)
    requires Known(s) && OperationValid(g, op)
    ensures Known(AfterOperation(g, s, op))
  {
    if op.Machine? { AfterEffectKnown(s, op.effect); }
  }

  lemma {:induction false} AfterOperationsKnown(g: Graph, s: set<Fact>, ops: seq<Operation>)
    requires Known(s) && forall i :: 0 <= i < |ops| ==> OperationValid(g, ops[i])
    ensures Known(AfterOperations(g, s, ops))
  {
    if ops != [] {
      AfterOperationsKnown(g, s, ops[..|ops| - 1]);
      AfterOperationKnown(g, AfterOperations(g, s, ops[..|ops| - 1]), ops[|ops| - 1]);
    }
  }

  lemma AfterParametersKnown(g: Graph, s: set<Fact>, e: Edge)
    requires Known(s) && EdgeValid(g, e)
    ensures Known(AfterParameters(s, e.parameters))
  {
    forall f | f in AfterParameters(s, e.parameters)
      ensures !f.loc.bank.Unknown? && f.sym.id != 0
    {
      if p :| p in e.parameters && p.to == f.sym.id {
        assert ParameterValid(g, p);
      }
    }
  }

  /* ---------- Backward origins ---------- */

  /** What a fact after a step depends on: nothing, an impossibility, or one earlier fact. */
  datatype Origin = Always | Never | From(fact: Fact)

  ghost predicate Holds(o: Origin, s: set<Fact>) {
    match o
    case Always => true
    case Never => false
    case From(f) => f in s
  }

  function EffectOrigin(e: Effect, f: Fact): Origin
    requires EffectValid(e)
  {
    if e.kind.Read? then From(f)
    else if e.kind.Call? then (if f.loc.bank.Frame? then From(f) else Never)
    else if e.clearTo > e.size && e.dst.Next(e.size).Covers(e.clearTo - e.size, f.loc) then Never
    else if e.dst.Covers(e.size, f.loc) then
      if e.kind.Kill? || e.src.bank.Unknown? then Never
      else From(Fact(e.src.Next(Max(0, e.dst.Offset(f.loc))), f.sym))
    else if e.kind.Swap? && e.src.Covers(e.size, f.loc) then
      From(Fact(e.dst.Next(Max(0, e.src.Offset(f.loc))), f.sym))
    else if !e.kind.Kill? && ZeroExtends(e.dst, e.size) && e.dst.Next(4).Covers(4, f.loc) then Never
    else if e.kind.Swap? && ZeroExtends(e.src, e.size) && e.src.Next(4).Covers(4, f.loc) then Never
    else From(f)
  }

  function OperationOrigin(g: Graph, op: Operation, f: Fact): Origin
    requires OperationValid(g, op)
  {
    match op
    case Machine(e) => EffectOrigin(e, f)
    case Define(loc, v) => DefineOrigin(loc, v, g.Width(v), f, true)
    case DefineConstant(loc, v) => DefineOrigin(loc, v, g.Width(v), f, false)
    case Use(_, _) => From(f)
    case Unsupported => From(f)
  }

  function DefineOrigin(loc: Location, v: nat, width: nat, f: Fact, forgets: bool): Origin {
    if loc.Covers(width, f.loc) then
      if f.sym == Symbol(v, Max(0, loc.Offset(f.loc))) then Always else Never
    else if forgets && f.sym.id == v then Never
    else From(f)
  }

  function OperationsOrigin(g: Graph, ops: seq<Operation>, f: Fact): Origin
    requires forall i :: 0 <= i < |ops| ==> OperationValid(g, ops[i])
  {
    if ops == [] then From(f)
    else
      match OperationOrigin(g, ops[|ops| - 1], f)
      case From(f') => OperationsOrigin(g, ops[..|ops| - 1], f')
      case o => o
  }

  function ParametersOrigin(ps: seq<Parameter>, f: Fact): Origin {
    if ps == [] then From(f)
    else if ps[0].to == f.sym.id then From(Fact(f.loc, Symbol(ps[0].from, f.sym.part)))
    else ParametersOrigin(ps[1..], f)
  }

  lemma CopyOriginCorrect(s: set<Fact>, e: Effect, f: Fact)
    requires Known(s) && EffectValid(e) && e.kind.Copy?
    ensures f in AfterEffect(s, e) <==> Holds(EffectOrigin(e, f), s)
  {
    MovedMember(s, e.src, e.dst, e.size, f);
  }

  lemma SwapOriginCorrect(s: set<Fact>, e: Effect, f: Fact)
    requires Known(s) && EffectValid(e) && e.kind.Swap?
    ensures f in AfterEffect(s, e) <==> Holds(EffectOrigin(e, f), s)
  {
    MovedMember(s, e.src, e.dst, e.size, f);
    MovedMember(s, e.dst, e.src, e.size, f);
  }

  /** Membership in a moved set, read backwards from the destination. */
  lemma MovedMember(s: set<Fact>, src: Location, dst: Location, size: nat, f: Fact)
    requires Known(s) && ValidCarrier(src, size, true) && ValidCarrier(dst, size, false)
    ensures f in Moved(s, src, dst, size) <==>
              && dst.Covers(size, f.loc) && !src.bank.Unknown?
              && Fact(src.Next(Max(0, dst.Offset(f.loc))), f.sym) in s
  {
    if dst.Covers(size, f.loc) && !src.bank.Unknown? {
      var i := dst.Offset(f.loc);
      var g := Fact(src.Next(i), f.sym);
      CarrierStep(src, size, i);
      CarrierBytes(dst, size, f.loc);
      if g in s {
        assert Fact(dst.Next(Max(0, src.Offset(g.loc))), g.sym) == f;
      }
      if h :| h in s && src.Covers(size, h.loc) && Fact(dst.Next(Max(0, src.Offset(h.loc))), h.sym) == f {
        CarrierStep(dst, size, src.Offset(h.loc));
        CarrierBytes(src, size, h.loc);
      }
    } else if f in Moved(s, src, dst, size) {
      var h :| h in s && src.Covers(size, h.loc) && Fact(dst.Next(Max(0, src.Offset(h.loc))), h.sym) == f;
      CarrierStep(dst, size, src.Offset(h.loc));
    }
  }

  lemma EffectOriginCorrect(s: set<Fact>, e: Effect, f: Fact)
    requires Known(s) && EffectValid(e)
    ensures f in AfterEffect(s, e) <==> Holds(EffectOrigin(e, f), s)
  {
    match e.kind
    case Copy => CopyOriginCorrect(s, e, f);
    case Swap => SwapOriginCorrect(s, e, f);
    case _ =>
  }

  lemma OperationOriginCorrect(g: Graph, s: set<Fact>, op: Operation, f: Fact)
    requires Known(s) && OperationValid(g, op)
    ensures f in AfterOperation(g, s, op) <==> Holds(OperationOrigin(g, op, f), s)
  {
    match op
    case Machine(e) => EffectOriginCorrect(s, e, f);
    case Define(loc, v) => CarriedMember(loc, v, g.Width(v), f);
    case DefineConstant(loc, v) => CarriedMember(loc, v, g.Width(v), f);
    case _ =>
  }

  lemma CarriedMember(loc: Location, id: nat, width: nat, f: Fact)
    requires ValidCarrier(loc, width, false)
    ensures f in Carried(loc, id, width) <==>
              loc.Covers(width, f.loc) && f.sym == Symbol(id, Max(0, loc.Offset(f.loc)))
  {
    CarrierBytes(loc, width, f.loc);
    if f in Carried(loc, id, width) {
      var i :| 0 <= i < width && Fact(loc.Next(i), Symbol(id, i)) == f;
      CarrierStep(loc, width, i);
    }
  }

  lemma {:induction false} OperationsOriginCorrect(g: Graph, s: set<Fact>, ops: seq<Operation>, f: Fact)
    requires Known(s) && forall i :: 0 <= i < |ops| ==> OperationValid(g, ops[i])
    ensures f in AfterOperations(g, s, ops) <==> Holds(OperationsOrigin(g, ops, f), s)
  {
    if ops != [] {
      var init := ops[..|ops| - 1];
      AfterOperationsKnown(g, s, init);
      OperationOriginCorrect(g, AfterOperations(g, s, init), ops[|ops| - 1], f);
      var o := OperationOrigin(g, ops[|ops| - 1], f);
      if o.From? { OperationsOriginCorrect(g, s, init, o.fact); }
    }
  }

  lemma {:induction false} ParametersOriginShape(ps: seq<Parameter>, f: Fact)
    requires forall j, k :: 0 <= j < k < |ps| ==> ps[j].to != ps[k].to
    ensures var o := ParametersOrigin(ps, f);
            && o.From?
            && ((forall p :: p in ps ==> p.to != f.sym.id) ==> o.fact == f)
            && (forall p :: p in ps && p.to == f.sym.id ==> o.fact == Fact(f.loc, Symbol(p.from, f.sym.part)))
  {
    if ps != [] && ps[0].to != f.sym.id {
      ParametersOriginShape(ps[1..], f);
      assert forall p :: p in ps ==> p == ps[0] || p in ps[1..];
    }
  }

  lemma ParametersOriginCorrect(s: set<Fact>, ps: seq<Parameter>, f: Fact)
    requires forall j, k :: 0 <= j < k < |ps| ==> ps[j].to != ps[k].to
    ensures f in AfterParameters(s, ps) <==> Holds(ParametersOrigin(ps, f), s)
  {
    ParametersOriginShape(ps, f);
    if p :| p in ps && p.to == f.sym.id {
      var g := Fact(f.loc, Symbol(p.from, f.sym.part));
      if g in s {
        assert Fact(g.loc, Symbol(p.to, g.sym.part)) == f;
      }
    }
  }
}
