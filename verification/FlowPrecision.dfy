/**
 The analysis loses nothing that a single step keeps: against the concrete machine, each fact after
 a step is settled by its origin.  A fact without an origin fails after some step that found it true.
 */
module FlowPrecision {
  import opened Transfers
  import opened Facts
  import opened Machine

  /** What a step may do to a fact, by its origin. */
  ghost predicate Precise(g: Graph, op: Operation, f: Fact)
    requires OperationValid(g, op)
  {
    match OperationOrigin(g, op, f)
    case Always => forall m, n, m', n' :: OperationStep(g, op, m, n, m', n') ==> FactTrue(m', n', f)
    case Never => exists m, n, m', n' :: OperationStep(g, op, m, n, m', n') && FactTrue(m, n, f) && !FactTrue(m', n', f)
    case From(o) => forall m, n, m', n' :: OperationStep(g, op, m, n, m', n') ==> (FactTrue(m', n', f) <==> FactTrue(m, n, o))
  }

  lemma EffectExact(e: Effect, m: Memory, m': Memory, n: Environment, f: Fact)
    requires EffectValid(e) && EffectStep(e, m, m') && !f.loc.bank.Unknown? && EffectOrigin(e, f).From?
    ensures FactTrue(m', n, f) <==> FactTrue(m, n, EffectOrigin(e, f).fact)
  {
    var o := EffectOrigin(e, f).fact;
    var same: Environment := (s: Symbol) => if s == f.sym then m(o.loc) else n(s);
    assert FactTrue(m, same, o);
    EffectSound(e, m, m', same, f);
  }

  /* ---------- Steps that make a fact false ---------- */

  /** Every byte is 1; a written byte is 1 when copied, 0 when zero-extended and 2 when arbitrary. */
  ghost function Written(e: Effect): Memory
    requires EffectValid(e)
  {
    (at: Location) =>
      if e.dst.Covers(e.size, at) then (if e.kind.Copy? && !e.src.bank.Unknown? then 1 else 2)
      else if e.dst.Covers(Reach(e), at) then (if e.kind.Copy? && e.clearTo == 0 then 0 else 2)
      else 1
  }

  function Reach(e: Effect): int {
    if e.kind.Copy? then Max(e.clearTo, WrittenSize(e.dst, e.size)) else Max(e.size, e.clearTo)
  }

  const ONES: Memory := (at: Location) => 1

  lemma ReachCarried(e: Effect)
    requires EffectValid(e) && (e.kind.Copy? || e.kind.Kill?)
    ensures ValidCarrier(e.dst, Reach(e), false) && e.size <= Reach(e)
  {
  }

  lemma WrittenSteps(e: Effect)
    requires EffectValid(e) && (e.kind.Copy? || e.kind.Kill?)
    ensures EffectStep(e, ONES, Written(e))
  {
    ReachCarried(e);
    var m' := Written(e);
    forall i | 0 <= i < Reach(e)
      ensures m'(e.dst.Next(i)) ==
              if i < e.size then (if e.kind.Copy? && !e.src.bank.Unknown? then 1 else 2)
              else if e.kind.Copy? && e.clearTo == 0 then 0 else 2
    {
      CarrierStep(e.dst, Reach(e), i);
      if i < e.size { CarrierStep(e.dst, e.size, i); }
    }
    forall at | forall i {:trigger e.dst.Next(i)} :: 0 <= i < Reach(e) ==> at != e.dst.Next(i)
      ensures m'(at) == ONES(at)
    {
      CarrierBytes(e.dst, Reach(e), at);
    }
  }

  lemma WriteLoses(e: Effect, f: Fact)
    requires EffectValid(e) && (e.kind.Copy? || e.kind.Kill?) && EffectOrigin(e, f).Never?
    ensures Written(e)(f.loc) != 1
  {
  }

  ghost function Swapped(e: Effect): Memory
    requires EffectValid(e)
  {
    (at: Location) =>
      if e.dst.Covers(e.size, at) || e.src.Covers(e.size, at) then 1
      else if e.dst.Covers(WrittenSize(e.dst, e.size), at) || e.src.Covers(WrittenSize(e.src, e.size), at) then 0
      else 1
  }

  lemma SwappedSteps(e: Effect)
    requires EffectValid(e) && e.kind.Swap?
    ensures EffectStep(e, ONES, Swapped(e))
  {
    var m' := Swapped(e);
    forall i | 0 <= i < e.size ensures m'(e.dst.Next(i)) == 1 && m'(e.src.Next(i)) == 1 {
      CarrierStep(e.dst, e.size, i);
      CarrierStep(e.src, e.size, i);
    }
    SwapUpper(e, e.dst);
    SwapUpper(e, e.src);
    forall at |
      && (forall i {:trigger e.dst.Next(i)} :: 0 <= i < WrittenSize(e.dst, e.size) ==> at != e.dst.Next(i))
      && (forall i {:trigger e.src.Next(i)} :: 0 <= i < WrittenSize(e.src, e.size) ==> at != e.src.Next(i))
      ensures m'(at) == ONES(at)
    {
      CarrierBytes(e.dst, WrittenSize(e.dst, e.size), at);
      CarrierBytes(e.src, WrittenSize(e.src, e.size), at);
    }
  }

  lemma SwapUpper(e: Effect, loc: Location)
    requires EffectValid(e) && e.kind.Swap? && (loc == e.dst || loc == e.src)
    ensures UpperHalfZero(Swapped(e), loc, e.size)
  {
    if ZeroExtends(loc, e.size) {
      assert loc.byte == 0 && e.size == 4;
      forall i | 4 <= i < 8 ensures Swapped(e)(loc.Next(i)) == 0 {
        CarrierStep(loc, 8, i);
      }
    }
  }

  lemma SwapLoses(e: Effect, f: Fact)
    requires EffectValid(e) && e.kind.Swap? && EffectOrigin(e, f).Never?
    ensures Swapped(e)(f.loc) == 0
  {
  }

  lemma EffectLoses(g: Graph, e: Effect, f: Fact)
    requires EffectValid(e) && EffectOrigin(e, f).Never?
    ensures Precise(g, Machine(e), f)
  {
    var n: Environment := (s: Symbol) => 1;
    var m': Memory;
    if e.kind.Call? {
      m' := (at: Location) => if at.bank.Frame? then 1 else 2;
    } else if e.kind.Swap? {
      m' := Swapped(e);
      SwappedSteps(e);
      SwapLoses(e, f);
    } else {
      m' := Written(e);
      WrittenSteps(e);
      WriteLoses(e, f);
    }
    hide EffectStep, Written, Swapped;
    assert OperationStep(g, Machine(e), ONES, n, m', n) && FactTrue(ONES, n, f) && !FactTrue(m', n, f);
  }

  /** The byte `f` speaks of is 1, and all others are 2. */
  ghost function Before(f: Fact): Environment {
    (s: Symbol) => if s == f.sym then 1 else 2
  }

  /** A definition gives its value new bytes, all different. */
  ghost function Defined(op: Operation, f: Fact): Environment
    requires op.Define? || op.DefineConstant?
  {
    (s: Symbol) => if s.id == op.value && op.Define? then 3 + s.part else Before(f)(s)
  }

  ghost function Stored(g: Graph, op: Operation, f: Fact): Memory
    requires op.Define? || op.DefineConstant?
  {
    (at: Location) =>
      if op.location.Covers(g.Width(op.value), at) then Defined(op, f)(Symbol(op.value, Max(0, op.location.Offset(at)))) else 1
  }

  lemma DefineSteps(g: Graph, op: Operation, f: Fact)
    requires OperationValid(g, op) && (op.Define? || op.DefineConstant?)
    ensures OperationStep(g, op, ONES, Before(f), Stored(g, op, f), Defined(op, f))
  {
    var loc, width := op.location, g.Width(op.value);
    hide OperationValid;
    forall i | 0 <= i < width ensures Stored(g, op, f)(loc.Next(i)) == Defined(op, f)(Symbol(op.value, i)) {
      CarrierStep(loc, width, i);
      assert Max(0, loc.Offset(loc.Next(i))) == i;
    }
    forall at | forall i {:trigger loc.Next(i)} :: 0 <= i < width ==> at != loc.Next(i)
      ensures Stored(g, op, f)(at) == ONES(at)
    {
      CarrierBytes(loc, width, at);
    }
  }

  lemma DefineLoses(g: Graph, op: Operation, f: Fact)
    requires OperationValid(g, op) && (op.Define? || op.DefineConstant?) && OperationOrigin(g, op, f).Never?
    ensures Precise(g, op, f)
  {
    DefineSteps(g, op, f);
    hide OperationStep, OperationValid;
    assert FactTrue(ONES, Before(f), f) && !FactTrue(Stored(g, op, f), Defined(op, f), f);
  }

  lemma DefineExact(g: Graph, op: Operation, m: Memory, n: Environment, m': Memory, n': Environment, f: Fact)
    requires OperationValid(g, op) && (op.Define? || op.DefineConstant?) && OperationStep(g, op, m, n, m', n')
    ensures OperationOrigin(g, op, f).Always? ==> FactTrue(m', n', f)
    ensures OperationOrigin(g, op, f).From? ==> (FactTrue(m', n', f) <==> FactTrue(m, n, OperationOrigin(g, op, f).fact))
  {
    var loc, width := op.location, g.Width(op.value);
    CarrierBytes(loc, width, f.loc);
    if !loc.Covers(width, f.loc) { NotCovered(loc, width, f.loc); }
  }

  /**
   Each origin is the exact one: a fact that comes from another is true after a step just when that
   one was before, and a fact with no origin is lost by some step that found it true.
   */
  lemma OriginIsPrecise(g: Graph, op: Operation, f: Fact)
    requires OperationValid(g, op) && !op.Unsupported? && !f.loc.bank.Unknown?
    ensures Precise(g, op, f)
  {
    var o := OperationOrigin(g, op, f);
    if o.Never? {
      if op.Machine? { EffectLoses(g, op.effect, f); } else { DefineLoses(g, op, f); }
    } else {
      forall m, n, m', n' | OperationStep(g, op, m, n, m', n')
        ensures o.Always? ==> FactTrue(m', n', f)
        ensures o.From? ==> (FactTrue(m', n', f) <==> FactTrue(m, n, o.fact))
      {
        match op
        case Machine(e) => EffectExact(e, m, m', n, f);
        case Use(_, _) =>
        case _ => DefineExact(g, op, m, n, m', n', f);
      }
    }
  }

  /** Across an edge every fact has one origin, and the two are true together. */
  lemma EdgeIsPrecise(g: Graph, e: Edge, m: Memory, n: Environment, m': Memory, n': Environment, f: Fact)
    requires EdgeValid(g, e) && EdgeStep(e, m, n, m', n')
    ensures ParametersOrigin(e.parameters, f).From?
    ensures FactTrue(m', n', f) <==> FactTrue(m, n, ParametersOrigin(e.parameters, f).fact)
  {
    ParametersOriginShape(e.parameters, f);
  }
}
