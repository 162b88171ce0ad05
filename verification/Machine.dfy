/**
 A concrete machine for checked graphs.  Memory gives every byte location a byte; the
 environment gives every semantic value its bytes.  `CheckedGraphIsSafe` is the meaning of a
 Verified verdict: on every run, every use reads the bytes of its value.
 */
module Machine {
  import opened Transfers
  import opened Facts
  import opened Paths

  type Memory = Location -> int
  type Environment = Symbol -> int

  datatype Config = Config(block: int, pc: int, mem: Memory, env: Environment)

  ghost predicate Untouched(m: Memory, m': Memory, loc: Location, size: int) {
    forall at :: (forall i {:trigger loc.Next(i)} :: 0 <= i < size ==> at != loc.Next(i)) ==> m'(at) == m(at)
  }

  /** Both regions excepted, memory is unchanged. */
  ghost predicate UntouchedPair(m: Memory, m': Memory, a: Location, sizeA: int, b: Location, sizeB: int) {
    forall at ::
      && (forall i {:trigger a.Next(i)} :: 0 <= i < sizeA ==> at != a.Next(i))
      && (forall i {:trigger b.Next(i)} :: 0 <= i < sizeB ==> at != b.Next(i))
      ==> m'(at) == m(at)
  }

  function WrittenSize(loc: Location, size: int): int {
    if ZeroExtends(loc, size) then 8 else size
  }

  ghost predicate UpperHalfZero(m': Memory, loc: Location, size: int) {
    ZeroExtends(loc, size) ==> forall i :: 4 <= i < 8 ==> m'(loc.Next(i)) == 0
  }

  /** What an emitted instruction may do to memory. Untracked sources and killed bytes are arbitrary. */
  ghost predicate EffectStep(e: Effect, m: Memory, m': Memory) {
    match e.kind
    case Copy =>
      && (!e.src.bank.Unknown? ==> forall i :: 0 <= i < e.size ==> m'(e.dst.Next(i)) == m(e.src.Next(i)))
      && (e.clearTo == 0 ==> UpperHalfZero(m', e.dst, e.size))
      && Untouched(m, m', e.dst, Max(e.clearTo, WrittenSize(e.dst, e.size)))
    case Swap =>
      && (forall i :: 0 <= i < e.size ==> m'(e.dst.Next(i)) == m(e.src.Next(i)) && m'(e.src.Next(i)) == m(e.dst.Next(i)))
      && UpperHalfZero(m', e.dst, e.size)
      && UpperHalfZero(m', e.src, e.size)
      && UntouchedPair(m, m', e.dst, WrittenSize(e.dst, e.size), e.src, WrittenSize(e.src, e.size))
    case Kill => Untouched(m, m', e.dst, Max(e.size, e.clearTo))
    case Call => forall at: Location :: at.bank.Frame? ==> m'(at) == m(at)
    case Read => forall at: Location :: m'(at) == m(at)
  }

  /** A definition gives its value arbitrary new bytes and stores exactly those. */
  ghost predicate OperationStep(g: Graph, op: Operation, m: Memory, n: Environment, m': Memory, n': Environment) {
    match op
    case Machine(e) => EffectStep(e, m, m') && forall s: Symbol :: n'(s) == n(s)
    case Define(loc, v) =>
      && (forall s: Symbol :: s.id != v ==> n'(s) == n(s))
      && (forall i :: 0 <= i < g.Width(v) ==> m'(loc.Next(i)) == n'(Symbol(v, i)))
      && Untouched(m, m', loc, g.Width(v))
    case DefineConstant(loc, v) =>
      && (forall s: Symbol :: n'(s) == n(s))
      && (forall i :: 0 <= i < g.Width(v) ==> m'(loc.Next(i)) == n(Symbol(v, i)))
      && Untouched(m, m', loc, g.Width(v))
    case Use(_, _) => (forall at: Location :: m'(at) == m(at)) && forall s: Symbol :: n'(s) == n(s)
    case Unsupported => true
  }

  /** An edge renames values simultaneously and moves no bytes. */
  ghost predicate EdgeStep(e: Edge, m: Memory, n: Environment, m': Memory, n': Environment) {
    && (forall at: Location :: m'(at) == m(at))
    && (forall s: Symbol :: (forall p :: p in e.parameters ==> p.to != s.id) ==> n'(s) == n(s))
    && (forall p, part :: p in e.parameters && 0 <= part ==> n'(Symbol(p.to, part)) == n(Symbol(p.from, part)))
  }

  ghost predicate InGraph(g: Graph, c: Config) {
    0 <= c.block < |g.blocks| && 0 <= c.pc <= |g.blocks[c.block].operations|
  }

  ghost predicate Carries(g: Graph, c: Config, loc: Location, v: nat) {
    forall i :: 0 <= i < g.Width(v) ==> c.mem(loc.Next(i)) == c.env(Symbol(v, i))
  }

  ghost predicate Initial(g: Graph, c: Config) {
    && c.block == g.entry && c.pc == 0
    && forall k :: 0 <= k < |g.inputs| ==> Carries(g, c, g.inputs[k].location, g.inputs[k].value)
  }

  ghost predicate Step(g: Graph, c: Config, c': Config) {
    && InGraph(g, c) && InGraph(g, c')
    && if c.pc < |g.blocks[c.block].operations| then
         && c'.block == c.block && c'.pc == c.pc + 1
         && OperationStep(g, g.blocks[c.block].operations[c.pc], c.mem, c.env, c'.mem, c'.env)
       else
         && c'.pc == 0
         && exists k :: Takes(g, c, c', k)
  }

  /** Control leaves the block of `c` through edge `k`. */
  ghost predicate Takes(g: Graph, c: Config, c': Config, k: int)
    requires InGraph(g, c)
  {
    && 0 <= k < |g.blocks[c.block].edges|
    && g.blocks[c.block].edges[k].to == c'.block
    && EdgeStep(g.blocks[c.block].edges[k], c.mem, c.env, c'.mem, c'.env)
  }

  ghost predicate IsRun(g: Graph, r: seq<Config>) {
    && r != []
    && InGraph(g, r[0]) && Initial(g, r[0])
    && forall i :: 0 < i < |r| ==> Step(g, r[i - 1], r[i])
  }

  /** At this point the machine keeps every promise the graph makes about it. */
  ghost predicate Safe(g: Graph, c: Config)
    requires InGraph(g, c)
  {
    if c.pc < |g.blocks[c.block].operations| then
      var op := g.blocks[c.block].operations[c.pc];
      !op.Unsupported? && (op.Use? ==> Carries(g, c, op.location, op.value))
    else
      forall k, j :: 0 <= k < |g.blocks[c.block].edges| && 0 <= j < |g.blocks[c.block].edges[k].parameters| ==>
        var p := g.blocks[c.block].edges[k].parameters[j];
        Carries(g, c, p.location, p.from)
  }

  /** What the analysis establishes when it answers Verified, stated on paths. */
  ghost predicate Checked(g: Graph) {
    && WellFormed(g)
    && (forall b, i :: 0 <= b < |g.blocks| && Reachable(g, b) && 0 <= i < |g.blocks[b].operations| ==>
          OperationChecked(g, b, i))
    && (forall b, k, j ::
          (0 <= b < |g.blocks| && Reachable(g, b) && 0 <= k < |g.blocks[b].edges| && 0 <= j < |g.blocks[b].edges[k].parameters|) ==>
          ParameterChecked(g, b, k, j))
  }

  ghost predicate OperationChecked(g: Graph, b: int, i: int)
    requires WellFormed(g) && 0 <= b < |g.blocks| && 0 <= i < |g.blocks[b].operations|
  {
    var op := g.blocks[b].operations[i];
    !op.Unsupported? && (op.Use? ==> MustCarry(g, b, i, op.location, op.value))
  }

  ghost predicate ParameterChecked(g: Graph, b: int, k: int, j: int)
    requires WellFormed(g) && 0 <= b < |g.blocks|
    requires 0 <= k < |g.blocks[b].edges| && 0 <= j < |g.blocks[b].edges[k].parameters|
  {
    var p := g.blocks[b].edges[k].parameters[j];
    MustCarry(g, b, |g.blocks[b].operations|, p.location, p.from)
  }

  /** Every byte of the value is a must-fact at the location. */
  ghost predicate MustCarry(g: Graph, b: int, i: nat, loc: Location, v: nat)
    requires WellFormed(g) && 0 <= b < |g.blocks| && i <= |g.blocks[b].operations|
  {
    forall part :: 0 <= part < g.Width(v) ==> MustFactAt(g, b, i, Fact(loc.Next(part), Symbol(v, part)))
  }

  /* ---------- Soundness of one step ---------- */

  ghost predicate FactTrue(m: Memory, n: Environment, f: Fact) {
    m(f.loc) == n(f.sym)
  }

  ghost predicate AllTrue(m: Memory, n: Environment, s: set<Fact>) {
    forall f :: f in s ==> FactTrue(m, n, f)
  }

  lemma NotCovered(loc: Location, size: nat, at: Location)
    requires ValidCarrier(loc, size, false) && !loc.Covers(size, at)
    ensures forall i {:trigger loc.Next(i)} :: 0 <= i < size ==> at != loc.Next(i)
  {
    CarrierBytes(loc, size, at);
  }

  /** A byte outside both the carrier and its zero-extended half is not written. */
  lemma NotWritten(loc: Location, size: nat, at: Location)
    requires ValidCarrier(loc, size, false) && !loc.Covers(size, at)
    requires ZeroExtends(loc, size) ==> loc.byte == 0 && !loc.Next(4).Covers(4, at)
    ensures forall i {:trigger loc.Next(i)} :: 0 <= i < WrittenSize(loc, size) ==> at != loc.Next(i)
  {
    NotCovered(loc, WrittenSize(loc, size), at);
  }

  lemma CopySound(e: Effect, m: Memory, m': Memory, n: Environment, f: Fact)
    requires EffectValid(e) && e.kind.Copy? && EffectStep(e, m, m') && !f.loc.bank.Unknown?
    requires var o := EffectOrigin(e, f); o.From? && FactTrue(m, n, o.fact)
    ensures FactTrue(m', n, f)
  {
    var o := EffectOrigin(e, f);
    if e.dst.Covers(e.size, f.loc) {
      CarrierBytes(e.dst, e.size, f.loc);
      var i := e.dst.Offset(f.loc);
      assert m'(e.dst.Next(i)) == m(e.src.Next(i));
    } else {
      var size := Max(e.clearTo, WrittenSize(e.dst, e.size));
      assert !e.dst.Covers(size, f.loc);
      NotCovered(e.dst, size, f.loc);
    }
  }

  lemma SwapElsewhere(e: Effect, m: Memory, m': Memory, at: Location)
    requires EffectValid(e) && e.kind.Swap? && EffectStep(e, m, m')
    requires !e.dst.Covers(e.size, at) && !e.src.Covers(e.size, at)
    requires ZeroExtends(e.dst, e.size) ==> !e.dst.Next(4).Covers(4, at)
    requires ZeroExtends(e.src, e.size) ==> !e.src.Next(4).Covers(4, at)
    ensures m'(at) == m(at)
  {
    NotWritten(e.dst, e.size, at);
    NotWritten(e.src, e.size, at);
  }

  lemma SwapSound(e: Effect, m: Memory, m': Memory, n: Environment, f: Fact)
    requires EffectValid(e) && e.kind.Swap? && EffectStep(e, m, m')
    requires var o := EffectOrigin(e, f); o.From? && FactTrue(m, n, o.fact)
    ensures FactTrue(m', n, f)
  {
    if e.dst.Covers(e.size, f.loc) {
      var i := e.dst.Offset(f.loc);
      assert f.loc == e.dst.Next(i) by { CarrierBytes(e.dst, e.size, f.loc); }
      assert m'(e.dst.Next(i)) == m(e.src.Next(i));
    } else if e.src.Covers(e.size, f.loc) {
      var i := e.src.Offset(f.loc);
      assert f.loc == e.src.Next(i) by { CarrierBytes(e.src, e.size, f.loc); }
      assert m'(e.src.Next(i)) == m(e.dst.Next(i));
    } else {
      SwapElsewhere(e, m, m', f.loc);
    }
  }

  lemma EffectSound(e: Effect, m: Memory, m': Memory, n: Environment, f: Fact)
    requires EffectValid(e) && EffectStep(e, m, m') && !f.loc.bank.Unknown?
    requires var o := EffectOrigin(e, f); o.From? && FactTrue(m, n, o.fact)
    ensures FactTrue(m', n, f)
  {
    match e.kind
    case Copy => CopySound(e, m, m', n, f);
    case Swap => SwapSound(e, m, m', n, f);
    case Kill => NotCovered(e.dst, Max(e.size, e.clearTo), f.loc);
    case _ =>
  }

  lemma DefineSound(g: Graph, loc: Location, v: nat, m: Memory, n: Environment, m': Memory, n': Environment, f: Fact, forgets: bool)
    requires ValidCarrier(loc, g.Width(v), false)
    requires forall s: Symbol :: s.id != v || !forgets ==> n'(s) == n(s)
    requires forall i :: 0 <= i < g.Width(v) ==> m'(loc.Next(i)) == n'(Symbol(v, i))
    requires Untouched(m, m', loc, g.Width(v))
    requires var o := DefineOrigin(loc, v, g.Width(v), f, forgets); o.Always? || (o.From? && FactTrue(m, n, o.fact))
    ensures FactTrue(m', n', f)
  {
    CarrierBytes(loc, g.Width(v), f.loc);
    if loc.Covers(g.Width(v), f.loc) {
      assert m'(loc.Next(loc.Offset(f.loc))) == n'(Symbol(v, loc.Offset(f.loc)));
    } else {
      NotCovered(loc, g.Width(v), f.loc);
    }
  }

  lemma OperationSound(g: Graph, op: Operation, s: set<Fact>, m: Memory, n: Environment, m': Memory, n': Environment)
    requires OperationValid(g, op) && !op.Unsupported? && Known(s)
    requires OperationStep(g, op, m, n, m', n') && AllTrue(m, n, s)
    ensures AllTrue(m', n', AfterOperation(g, s, op))
  {
    AfterOperationKnown(g, s, op);
    forall f | f in AfterOperation(g, s, op)
      ensures FactTrue(m', n', f)
    {
      OperationOriginCorrect(g, s, op, f);
      match op
      case Machine(e) => EffectSound(e, m, m', n, f);
      case Define(loc, v) => DefineSound(g, loc, v, m, n, m', n', f, true);
      case DefineConstant(loc, v) => DefineSound(g, loc, v, m, n, m', n', f, false);
      case _ =>
    }
  }

  lemma EdgeSound(g: Graph, e: Edge, s: set<Fact>, m: Memory, n: Environment, m': Memory, n': Environment)
    requires EdgeValid(g, e) && EdgeStep(e, m, n, m', n') && AllTrue(m, n, s)
    ensures AllTrue(m', n', AfterParameters(s, e.parameters))
  {
    forall f | f in AfterParameters(s, e.parameters)
      ensures FactTrue(m', n', f)
    {
      ParametersOriginCorrect(s, e.parameters, f);
      ParametersOriginShape(e.parameters, f);
    }
  }

  lemma {:induction false} InputsTrue(g: Graph, c: Config, n: nat)
    requires WellFormed(g) && Initial(g, c) && n <= |g.inputs|
    ensures AllTrue(c.mem, c.env, InputFacts(g, n))
  {
    if n > 0 {
      InputsTrue(g, c, n - 1);
      assert Carries(g, c, g.inputs[n - 1].location, g.inputs[n - 1].value);
    }
  }

  /* ---------- Soundness over whole runs ---------- */

  /** The configuration is explained by a path whose facts are all true of it. */
  ghost predicate Explained(g: Graph, c: Config, p: seq<Hop>)
    requires WellFormed(g) && InGraph(g, c)
  {
    && IsPath(g, p, c.block)
    && AllTrue(c.mem, c.env, FactsAt(g, c.block, c.pc, PathFacts(g, p, c.block)))
  }

  lemma ExplainedIsSafe(g: Graph, c: Config, p: seq<Hop>)
    requires Checked(g) && InGraph(g, c) && Explained(g, c, p)
    ensures Safe(g, c)
  {
    var b := g.blocks[c.block];
    assert Reachable(g, c.block);
    if c.pc < |b.operations| {
      assert OperationChecked(g, c.block, c.pc);
    } else {
      forall k, j | 0 <= k < |b.edges| && 0 <= j < |b.edges[k].parameters|
        ensures Carries(g, c, b.edges[k].parameters[j].location, b.edges[k].parameters[j].from)
      {
        assert ParameterChecked(g, c.block, k, j);
      }
    }
  }

  lemma StepWithinBlock(g: Graph, c: Config, c': Config, p: seq<Hop>)
    requires Checked(g) && InGraph(g, c) && Explained(g, c, p) && Step(g, c, c')
    requires c.pc < |g.blocks[c.block].operations|
    ensures Explained(g, c', p)
  {
    var ops := g.blocks[c.block].operations;
    var s := PathFacts(g, p, c.block);
    assert Reachable(g, c.block);
    assert OperationChecked(g, c.block, c.pc);
    assert BlockValid(g, g.blocks[c.block]);
    PathFactsKnown(g, p, c.block);
    FactsAtKnown(g, c.block, c.pc, s);
    assert ops[..c.pc + 1][..c.pc] == ops[..c.pc];
    OperationSound(g, ops[c.pc], FactsAt(g, c.block, c.pc, s), c.mem, c.env, c'.mem, c'.env);
  }

  lemma StepAcrossEdge(g: Graph, c: Config, c': Config, p: seq<Hop>) returns (p': seq<Hop>)
    requires Checked(g) && InGraph(g, c) && Explained(g, c, p) && Step(g, c, c')
    requires c.pc == |g.blocks[c.block].operations|
    ensures Explained(g, c', p')
  {
    var k :| Takes(g, c, c', k);
    var h := Hop(c.block, k);
    p' := p + [h];
    PathExtends(g, p, h);
    assert BlockValid(g, g.blocks[c.block]);
    EdgeSound(g, g.blocks[c.block].edges[k], FactsOut(g, c.block, PathFacts(g, p, c.block)), c.mem, c.env, c'.mem, c'.env);
  }

  lemma {:induction false} RunExplained(g: Graph, r: seq<Config>) returns (p: seq<Hop>)
    requires Checked(g) && IsRun(g, r)
    ensures InGraph(g, r[|r| - 1]) && Explained(g, r[|r| - 1], p)
  {
    var c' := r[|r| - 1];
    if |r| == 1 {
      p := [];
      InputsTrue(g, c', |g.inputs|);
    } else {
      var c := r[|r| - 2];
      assert Step(g, r[|r| - 2], r[|r| - 1]);
      assert r[..|r| - 1][|r| - 2] == c;
      p := RunExplained(g, r[..|r| - 1]);
      if c.pc < |g.blocks[c.block].operations| {
        StepWithinBlock(g, c, c', p);
      } else {
        p := StepAcrossEdge(g, c, c', p);
      }
    }
  }

  /** On every run of a checked graph, every configuration is safe. */
  lemma CheckedGraphIsSafe(g: Graph, r: seq<Config>, i: int)
    requires Checked(g) && IsRun(g, r) && 0 <= i < |r|
    ensures InGraph(g, r[i]) && Safe(g, r[i])
  {
    var prefix := r[..i + 1];
    assert prefix[|prefix| - 1] == r[i];
    var p := RunExplained(g, prefix);
    ExplainedIsSafe(g, r[i], p);
  }

  ghost predicate AllRunsSafe(g: Graph) {
    forall r: seq<Config>, i :: IsRun(g, r) && 0 <= i < |r| ==> InGraph(g, r[i]) && Safe(g, r[i])
  }

  lemma CheckedRunsAreSafe(g: Graph)
    requires Checked(g)
    ensures AllRunsSafe(g)
  {
    forall r: seq<Config>, i | IsRun(g, r) && 0 <= i < |r| ensures InGraph(g, r[i]) && Safe(g, r[i]) {
      CheckedGraphIsSafe(g, r, i);
    }
  }
}
