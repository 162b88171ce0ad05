/**
 Strict JSON objects (section 4 of RFC 8259 leaves repeated names open): which trees have
 unique member names under a Go type, and a one-pass token machine that accepts exactly their
 token streams. Name folding is a parameter.
 */
module JsonTrees {
  import opened Options

  datatype Token = OpenObject | OpenArray | CloseObject | CloseArray | Text(text: string) | Atom

  datatype Json = Plain | Quoted(text: string) | Arr(items: Items) | Obj(members: Members)

  datatype Items = NoItems | Item(head: Json, tail: Items)

  datatype Members = NoMembers | Member(key: string, value: Json, rest: Members)

  /* ---------- Types ---------- */

  type TypeId = nat

  datatype Field = Field(name: string, typ: Option<TypeId>)

  /** A Go type behind pointers; values without one, and raw messages, are untyped. */
  datatype Shape = Untyped | Scalar | Sequence(elem: Option<TypeId>) | Mapping(elem: Option<TypeId>) | Struct(fields: seq<Field>)

  /** Types may refer to themselves, so they are named. */
  type Types = map<TypeId, Shape>

  function ShapeOf(types: Types, t: Option<TypeId>): Shape {
    if t.Some? && t.value in types then types[t.value] else Untyped
  }

  /** The type of elements before any key is read. A struct or scalar read as an array passes its own type on. */
  function ElementType(types: Types, t: Option<TypeId>): Option<TypeId> {
    match ShapeOf(types, t)
    case Sequence(e) => e
    case Mapping(e) => e
    case Untyped => None
    case _ => t
  }

  function ExactField(fields: seq<Field>, key: string): (r: Option<Field>)
    ensures r.Some? ==> r.value in fields && r.value.name == key
    ensures r.None? ==> forall f :: f in fields ==> f.name != key
  {
    if |fields| == 0 then None else if fields[0].name == key then Some(fields[0]) else ExactField(fields[1..], key)
  }

  function FoldedField(fields: seq<Field>, folded: string, fold: string -> string): (r: Option<Field>)
    ensures r.Some? ==> r.value in fields && fold(r.value.name) == folded
    ensures r.None? ==> forall f :: f in fields ==> fold(f.name) != folded
  {
    if |fields| == 0 then None else if fold(fields[0].name) == folded then Some(fields[0]) else FoldedField(fields[1..], folded, fold)
  }

  /** The type of a member's value: an exact field name first, then the first field of the same fold. */
  function MemberType(types: Types, t: Option<TypeId>, key: string, fold: string -> string): Option<TypeId> {
    match ShapeOf(types, t)
    case Struct(fields) =>
      (match ExactField(fields, key)
       case Some(f) => f.typ
       case None =>
         match FoldedField(fields, fold(key), fold)
         case Some(f) => f.typ
         case None => None)
    case Mapping(e) => e
    case _ => None
  }

  /** The name under which a member counts as repeated. */
  function Canonical(types: Types, t: Option<TypeId>, key: string, fold: string -> string): string {
    if ShapeOf(types, t).Struct? then fold(key) else key
  }

  /* ---------- The specification ---------- */

  function Names(members: Members, types: Types, t: Option<TypeId>, fold: string -> string): set<string> {
    if members.NoMembers? then {} else {Canonical(types, t, members.key, fold)} + Names(members.rest, types, t, fold)
  }

  /** No object repeats a member: up to folding in structs, exactly elsewhere. */
  predicate Unique(j: Json, types: Types, t: Option<TypeId>, fold: string -> string) {
    match j
    case Arr(items) => UniqueItems(items, types, ElementType(types, t), fold)
    case Obj(members) => UniqueMembers(members, types, t, fold)
    case _ => true
  }

  predicate UniqueItems(items: Items, types: Types, t: Option<TypeId>, fold: string -> string) {
    items.NoItems? || (Unique(items.head, types, t, fold) && UniqueItems(items.tail, types, t, fold))
  }

  predicate UniqueMembers(members: Members, types: Types, t: Option<TypeId>, fold: string -> string) {
    members.NoMembers? ||
    (&& Canonical(types, t, members.key, fold) !in Names(members.rest, types, t, fold)
     && Unique(members.value, types, MemberType(types, t, members.key, fold), fold)
     && UniqueMembers(members.rest, types, t, fold))
  }

  function Tokens(j: Json): seq<Token> {
    match j
    case Plain => [Atom]
    case Quoted(s) => [Text(s)]
    case Arr(items) => [OpenArray] + ItemTokens(items) + [CloseArray]
    case Obj(members) => [OpenObject] + MemberTokens(members) + [CloseObject]
  }

  function ItemTokens(items: Items): seq<Token> {
    if items.NoItems? then [] else Tokens(items.head) + ItemTokens(items.tail)
  }

  function MemberTokens(members: Members): seq<Token> {
    if members.NoMembers? then [] else [Text(members.key)] + Tokens(members.value) + MemberTokens(members.rest)
  }

  function Values(j: Json): nat {
    match j
    case Arr(items) => 1 + ItemValues(items)
    case Obj(members) => 1 + MemberValues(members)
    case _ => 1
  }

  function ItemValues(items: Items): nat {
    if items.NoItems? then 0 else Values(items.head) + ItemValues(items.tail)
  }

  function MemberValues(members: Members): nat {
    if members.NoMembers? then 0 else Values(members.value) + MemberValues(members.rest)
  }

  function Max(a: nat, b: nat): nat {
    if a < b then b else a
  }

  function Depth(j: Json): nat {
    match j
    case Arr(items) => 1 + ItemDepth(items)
    case Obj(members) => 1 + MemberDepth(members)
    case _ => 0
  }

  function ItemDepth(items: Items): nat {
    if items.NoItems? then 0 else Max(Depth(items.head), ItemDepth(items.tail))
  }

  function MemberDepth(members: Members): nat {
    if members.NoMembers? then 0 else Max(Depth(members.value), MemberDepth(members.rest))
  }

  /** Zero leaves a dimension unbounded. */
  datatype Limits = Limits(maxDepth: nat, maxValues: nat)

  predicate Bounded(limit: nat, n: nat) {
    limit == 0 || n <= limit
  }

  predicate WithinLimits(j: Json, limits: Limits) {
    Bounded(limits.maxValues, Values(j)) && Bounded(limits.maxDepth, Depth(j))
  }

  /* ---------- The machine, with one plain set of names per object ---------- */

  datatype Frame = Frame(object_: bool, wantKey: bool, typ: Option<TypeId>, valueType: Option<TypeId>, names: set<string>)

  datatype Machine = Machine(frames: seq<Frame>, started: bool, complete: bool, values: nat)

  datatype Context = Context(types: Types, root: Option<TypeId>, fold: string -> string, limits: Limits)

  function Top(m: Machine): Frame
    requires |m.frames| > 0
  {
    m.frames[|m.frames| - 1]
  }

  function WithTop(m: Machine, f: Frame): Machine
    requires |m.frames| > 0
  {
    m.(frames := m.frames[..|m.frames| - 1] + [f])
  }

  /** A value may start here. */
  predicate Ready(m: Machine) {
    if |m.frames| == 0 then !m.started && !m.complete else !(Top(m).object_ && Top(m).wantKey) && !m.complete
  }

  function Begun(m: Machine): Machine {
    if |m.frames| == 0 then m.(started := true) else m
  }

  function Completed(m: Machine): Machine {
    if |m.frames| == 0 then m.(complete := true)
    else if Top(m).object_ then WithTop(m, Top(m).(wantKey := true))
    else m
  }

  function ChildType(c: Context, m: Machine): Option<TypeId> {
    if |m.frames| == 0 then c.root else Top(m).valueType
  }

  function StepOpen(c: Context, m: Machine, object_: bool): Option<Machine> {
    if !Bounded(c.limits.maxValues, m.values + 1) || !Bounded(c.limits.maxDepth, |m.frames| + 1) || !Ready(m) then None
    else
      var t := ChildType(c, m);
      var b := Begun(m.(values := m.values + 1));
      Some(b.(frames := b.frames + [Frame(object_, object_, t, ElementType(c.types, t), {})]))
  }

  function StepClose(m: Machine, object_: bool): Option<Machine> {
    if m.complete || |m.frames| == 0 || Top(m).object_ != object_ || (Top(m).object_ && !Top(m).wantKey) then None
    else Some(Completed(m.(frames := m.frames[..|m.frames| - 1])))
  }

  predicate WantsKey(m: Machine) {
    !m.complete && |m.frames| > 0 && Top(m).object_ && Top(m).wantKey
  }

  function StepKey(c: Context, m: Machine, key: string): Option<Machine>
    requires WantsKey(m)
  {
    var f := Top(m);
    var name := Canonical(c.types, f.typ, key, c.fold);
    if name in f.names then None
    else Some(WithTop(m, f.(names := f.names + {name}, valueType := MemberType(c.types, f.typ, key, c.fold), wantKey := false)))
  }

  function StepScalar(c: Context, m: Machine): Option<Machine> {
    if !Bounded(c.limits.maxValues, m.values + 1) || !Ready(m) then None
    else Some(Completed(Begun(m.(values := m.values + 1))))
  }

  function Step(c: Context, m: Machine, token: Token): Option<Machine> {
    match token
    case OpenObject => StepOpen(c, m, true)
    case OpenArray => StepOpen(c, m, false)
    case CloseObject => StepClose(m, true)
    case CloseArray => StepClose(m, false)
    case Text(key) => if WantsKey(m) then StepKey(c, m, key) else StepScalar(c, m)
    case Atom => if WantsKey(m) then None else StepScalar(c, m)
  }

  function RunFrom(c: Context, m: Machine, tokens: seq<Token>): Option<Machine>
    decreases |tokens|
  {
    if |tokens| == 0 then Some(m)
    else
      match Step(c, m, tokens[0])
      case None => None
      case Some(m') => RunFrom(c, m', tokens[1..])
  }

  const START := Machine([], false, false, 0)

  predicate Accepts(c: Context, tokens: seq<Token>) {
    var m := RunFrom(c, START, tokens);
    m.Some? && m.value.complete
  }

  lemma {:induction false} RunAppend(c: Context, m: Machine, a: seq<Token>, b: seq<Token>)
    ensures RunFrom(c, m, a + b) == match RunFrom(c, m, a) case None => None case Some(m') => RunFrom(c, m', b)
    decreases |a|
  {
    if |a| == 0 {
      assert a + b == b;
    } else {
      assert (a + b)[0] == a[0] && (a + b)[1..] == a[1..] + b;
      match Step(c, m, a[0]) {
        case None =>
        case Some(m') => RunAppend(c, m', a[1..], b);
      }
    }
  }

  /* ---------- A tree's tokens, read where a value may start ---------- */

  predicate Room(c: Context, m: Machine, values: nat, depth: nat) {
    Bounded(c.limits.maxValues, m.values + values) && Bounded(c.limits.maxDepth, |m.frames| + depth)
  }

  /** The tree fits here: unique under the expected type, and within what the limits leave. */
  predicate Fits(c: Context, m: Machine, j: Json) {
    Unique(j, c.types, ChildType(c, m), c.fold) && Room(c, m, Values(j), Depth(j))
  }

  function After(m: Machine, j: Json): Machine {
    Completed(Begun(m.(values := m.values + Values(j))))
  }

  predicate InArray(m: Machine) {
    !m.complete && |m.frames| > 0 && !Top(m).object_
  }

  predicate ItemsFit(c: Context, m: Machine, items: Items)
    requires InArray(m)
  {
    UniqueItems(items, c.types, Top(m).valueType, c.fold) && Room(c, m, ItemValues(items), ItemDepth(items))
  }

  predicate MembersFit(c: Context, m: Machine, members: Members)
    requires WantsKey(m)
  {
    && UniqueMembers(members, c.types, Top(m).typ, c.fold)
    && Names(members, c.types, Top(m).typ, c.fold) !! Top(m).names
    && Room(c, m, MemberValues(members), MemberDepth(members))
  }

  /** The machine after one member. */
  function AfterMember(c: Context, m: Machine, key: string, value: Json): (r: Machine)
    requires WantsKey(m)
    ensures WantsKey(r) && |r.frames| == |m.frames| && r.frames[..|m.frames| - 1] == m.frames[..|m.frames| - 1]
    ensures r.values == m.values + Values(value) && Top(r).typ == Top(m).typ && r.started == m.started
    ensures Top(r).names == Top(m).names + {Canonical(c.types, Top(m).typ, key, c.fold)}
  {
    var f := Top(m);
    WithTop(m, f.(names := f.names + {Canonical(c.types, f.typ, key, c.fold)}, valueType := MemberType(c.types, f.typ, key, c.fold)))
      .(values := m.values + Values(value))
  }

  function AfterMembers(c: Context, m: Machine, members: Members): (r: Machine)
    requires WantsKey(m)
    ensures WantsKey(r) && |r.frames| == |m.frames| && r.frames[..|m.frames| - 1] == m.frames[..|m.frames| - 1]
    ensures r.values == m.values + MemberValues(members) && r.started == m.started
    decreases members
  {
    if members.NoMembers? then m else AfterMembers(c, AfterMember(c, m, members.key, members.value), members.rest)
  }

  lemma RunOne(c: Context, m: Machine, token: Token)
    ensures RunFrom(c, m, [token]) == Step(c, m, token)
  {
    match Step(c, m, token) {
      case None =>
      case Some(m') => assert RunFrom(c, m', [token][1..]) == Some(m');
    }
  }

  lemma RunNone(c: Context, m: Machine)
    ensures RunFrom(c, m, []) == Some(m)
  {
  }

  lemma AfterItem(m: Machine, j: Json)
    requires InArray(m)
    ensures After(m, j) == m.(values := m.values + Values(j))
  {
  }

  /** Reading a whole tree where a value may start succeeds exactly when it fits. */
  lemma {:induction false} ReadValue(c: Context, m: Machine, j: Json)
    requires Ready(m) && Room(c, m, 0, 0)
    ensures RunFrom(c, m, Tokens(j)) == if Fits(c, m, j) then Some(After(m, j)) else None
    decreases j
  {
    match j {
      case Plain => RunOne(c, m, Atom);
      case Quoted(s) => RunOne(c, m, Text(s));
      case Arr(items) => ReadArray(c, m, items);
      case Obj(members) => ReadObject(c, m, members);
    }
  }

  /** A bracketed stream runs through its bracket, its contents and its closing bracket. */
  lemma RunBracket(c: Context, m: Machine, first: Token, inner: seq<Token>, last: Token)
    ensures Step(c, m, first).None? ==> RunFrom(c, m, [first] + inner + [last]).None?
    ensures Step(c, m, first).Some? ==>
              var m1 := Step(c, m, first).value;
              && (RunFrom(c, m1, inner).None? ==> RunFrom(c, m, [first] + inner + [last]).None?)
              && (RunFrom(c, m1, inner).Some? ==> RunFrom(c, m, [first] + inner + [last]) == Step(c, RunFrom(c, m1, inner).value, last))
  {
    hide RunFrom, Step;
    RunAppend(c, m, [first] + inner, [last]);
    RunAppend(c, m, [first], inner);
    RunOne(c, m, first);
    if Step(c, m, first).Some? && RunFrom(c, Step(c, m, first).value, inner).Some? {
      RunOne(c, RunFrom(c, Step(c, m, first).value, inner).value, last);
    }
  }

  lemma {:induction false} ReadArray(c: Context, m: Machine, items: Items)
    requires Ready(m) && Room(c, m, 0, 0)
    ensures RunFrom(c, m, Tokens(Arr(items))) == if Fits(c, m, Arr(items)) then Some(After(m, Arr(items))) else None
    decreases items, 1
  {
    hide RunFrom, Unique, StepOpen, StepClose, After, Ready, ItemTokens, ItemValues, ItemDepth, UniqueItems, Bounded, ElementType;
    Refused(c, m, false, Values(Arr(items)), Depth(Arr(items)));
    RunBracket(c, m, OpenArray, ItemTokens(items), CloseArray);
    UniqueUnfolds(c, m, Arr(items));
    if StepOpen(c, m, false).Some? {
      var m1 := StepOpen(c, m, false).value;
      Entered(c, m, false);
      ReadItems(c, m1, items);
      if ItemsFit(c, m1, items) {
        Left(c, m, m1.(values := m1.values + ItemValues(items)), Arr(items));
      }
    }
  }

  lemma {:induction false} ReadObject(c: Context, m: Machine, members: Members)
    requires Ready(m) && Room(c, m, 0, 0)
    ensures RunFrom(c, m, Tokens(Obj(members))) == if Fits(c, m, Obj(members)) then Some(After(m, Obj(members))) else None
    decreases members, 1
  {
    hide RunFrom, Unique, StepOpen, StepClose, After, Ready, MemberTokens, MemberValues, MemberDepth, UniqueMembers, Bounded, Names, AfterMembers, ElementType;
    Refused(c, m, true, Values(Obj(members)), Depth(Obj(members)));
    RunBracket(c, m, OpenObject, MemberTokens(members), CloseObject);
    UniqueUnfolds(c, m, Obj(members));
    if StepOpen(c, m, true).Some? {
      var m1 := StepOpen(c, m, true).value;
      Entered(c, m, true);
      ReadMembers(c, m1, members);
      if MembersFit(c, m1, members) {
        Left(c, m, AfterMembers(c, m1, members), Obj(members));
      }
    }
  }

  lemma UniqueUnfolds(c: Context, m: Machine, j: Json)
    ensures j.Arr? ==> Unique(j, c.types, ChildType(c, m), c.fold) == UniqueItems(j.items, c.types, ElementType(c.types, ChildType(c, m)), c.fold)
    ensures j.Obj? ==> Unique(j, c.types, ChildType(c, m), c.fold) == UniqueMembers(j.members, c.types, ChildType(c, m), c.fold)
  {
  }

  /** Where a value may start, only the limits refuse a bracket. */
  lemma Refused(c: Context, m: Machine, object_: bool, values: nat, depth: nat)
    requires Ready(m) && values >= 1 && depth >= 1
    ensures Room(c, m, values, depth) ==> StepOpen(c, m, object_).Some?
  {
  }

  lemma Entered(c: Context, m: Machine, object_: bool)
    requires StepOpen(c, m, object_).Some?
    ensures var m1 := StepOpen(c, m, object_).value;
            && |m1.frames| == |m.frames| + 1 && m1.frames[..|m.frames|] == m.frames
            && m1.values == m.values + 1 && m1.started == Begun(m).started && !m1.complete
            && Top(m1) == Frame(object_, object_, ChildType(c, m), ElementType(c.types, ChildType(c, m)), {})
            && Room(c, m1, 0, 0)
  {
  }

  /** Closing what was opened completes the value. */
  lemma Left(c: Context, m: Machine, m2: Machine, j: Json)
    requires Ready(m) && (j.Arr? || j.Obj?) && !m2.complete
    requires |m2.frames| == |m.frames| + 1 && m2.frames[..|m.frames|] == m.frames
    requires m2.values == m.values + Values(j) && m2.started == Begun(m).started
    requires Top(m2).object_ == j.Obj? && (j.Obj? ==> Top(m2).wantKey)
    ensures StepClose(m2, j.Obj?) == Some(After(m, j))
  {
    assert m2.frames[..|m2.frames| - 1] == m.frames;
    assert m2.(frames := m.frames) == Begun(m.(values := m.values + Values(j)));
  }

  lemma {:induction false} ReadItems(c: Context, m: Machine, items: Items)
    requires InArray(m) && Room(c, m, 0, 0)
    ensures RunFrom(c, m, ItemTokens(items)) == if ItemsFit(c, m, items) then Some(m.(values := m.values + ItemValues(items))) else None
    decreases items, 0
  {
    hide RunFrom, Unique, Completed, Begun;
    RunNone(c, m);
    if items.Item? {
      AfterItem(m, items.head);
      RunAppend(c, m, Tokens(items.head), ItemTokens(items.tail));
      ReadValue(c, m, items.head);
      if Fits(c, m, items.head) {
        ReadItems(c, After(m, items.head), items.tail);
      }
    }
  }

  lemma KeyStep(c: Context, m: Machine, key: string, value: Json)
    requires WantsKey(m) && Room(c, m, 0, 0) && Canonical(c.types, Top(m).typ, key, c.fold) !in Top(m).names
    ensures var m1 := Step(c, m, Text(key));
            && m1.Some? && Ready(m1.value) && Room(c, m1.value, 0, 0)
            && ChildType(c, m1.value) == MemberType(c.types, Top(m).typ, key, c.fold)
            && m1.value.values == m.values && |m1.value.frames| == |m.frames|
            && After(m1.value, value) == AfterMember(c, m, key, value)
  {
  }

  lemma {:induction false} ReadMembers(c: Context, m: Machine, members: Members)
    requires WantsKey(m) && Room(c, m, 0, 0)
    ensures RunFrom(c, m, MemberTokens(members)) == if MembersFit(c, m, members) then Some(AfterMembers(c, m, members)) else None
    decreases members, 0
  {
    hide RunFrom, Unique, Step, After, AfterMember, MemberType;
    RunNone(c, m);
    if members.Member? {
      var key, value := members.key, members.value;
      RunAppend(c, m, [Text(key)] + Tokens(value), MemberTokens(members.rest));
      RunAppend(c, m, [Text(key)], Tokens(value));
      RunOne(c, m, Text(key));
      if Canonical(c.types, Top(m).typ, key, c.fold) !in Top(m).names {
        KeyStep(c, m, key, value);
        var m1 := Step(c, m, Text(key)).value;
        ReadValue(c, m1, value);
        if Fits(c, m1, value) {
          ReadMembers(c, AfterMember(c, m, key, value), members.rest);
        }
      } else {
        KeyRepeats(c, m, key);
      }
    }
  }

  lemma KeyRepeats(c: Context, m: Machine, key: string)
    requires WantsKey(m) && Canonical(c.types, Top(m).typ, key, c.fold) in Top(m).names
    ensures Step(c, m, Text(key)).None?
  {
  }

  /* ---------- Every accepted stream is a tree's ---------- */

  /** Values are complete only outside all brackets. */
  predicate Sound(m: Machine) {
    m.complete ==> |m.frames| == 0
  }

  /** The rest of an accepted stream after its first token. */
  lemma Follow(c: Context, m: Machine, tokens: seq<Token>) returns (m1: Machine)
    requires |tokens| > 0 && RunFrom(c, m, tokens).Some?
    ensures Step(c, m, tokens[0]) == Some(m1) && RunFrom(c, m, tokens) == RunFrom(c, m1, tokens[1..])
  {
    m1 := Step(c, m, tokens[0]).value;
  }

  ghost predicate Finishes(c: Context, m: Machine, tokens: seq<Token>) {
    Sound(m) && Room(c, m, 0, 0) && RunFrom(c, m, tokens).Some? && RunFrom(c, m, tokens).value.complete
  }

  /** A stream that finishes from where a value starts begins with a tree that fits there. */
  lemma {:induction false} ParseValue(c: Context, m: Machine, tokens: seq<Token>) returns (j: Json, rest: seq<Token>)
    requires Ready(m) && Finishes(c, m, tokens) && (|tokens| > 0 ==> !tokens[0].CloseArray?)
    ensures tokens == Tokens(j) + rest
    ensures Fits(c, m, j) && Finishes(c, After(m, j), rest)
    decreases |tokens|, 1
  {
    hide RunFrom, Unique, Step, Fits, After;
    NotDone(c, m, tokens);
    var m1 := Follow(c, m, tokens);
    var first := tokens[0];
    assert tokens == [first] + tokens[1..];
    FirstOfValue(c, m, first);
    match first {
      case Atom =>
        j, rest := Plain, tokens[1..];
      case Text(s) =>
        j, rest := Quoted(s), tokens[1..];
      case OpenArray =>
        var items, more := ParseItems(c, m1, tokens[1..]);
        j, rest := Arr(items), more;
        assert tokens == Tokens(j) + rest;
      case OpenObject =>
        var members, more := ParseMembers(c, m1, tokens[1..]);
        j, rest := Obj(members), more;
        assert tokens == Tokens(j) + rest;
    }
    Prefix(c, m, j, tokens, rest);
  }

  lemma {:induction false} ParseItems(c: Context, m: Machine, tokens: seq<Token>) returns (items: Items, rest: seq<Token>)
    requires InArray(m) && Finishes(c, m, tokens)
    ensures tokens == ItemTokens(items) + [CloseArray] + rest
    decreases |tokens|, 2
  {
    hide RunFrom, Unique, Step, Fits, Tokens;
    NotDone(c, m, tokens);
    if tokens[0].CloseArray? {
      items, rest := NoItems, tokens[1..];
    } else {
      var head, more := ParseValue(c, m, tokens);
      TokensNonempty(head);
      AfterItem(m, head);
      var tail;
      tail, rest := ParseItems(c, After(m, head), more);
      items := Item(head, tail);
    }
  }

  lemma {:induction false} ParseMembers(c: Context, m: Machine, tokens: seq<Token>) returns (members: Members, rest: seq<Token>)
    requires WantsKey(m) && Finishes(c, m, tokens)
    ensures tokens == MemberTokens(members) + [CloseObject] + rest
    decreases |tokens|, 2
  {
    hide RunFrom, Unique, Step, Fits, Tokens;
    NotDone(c, m, tokens);
    var m1 := Follow(c, m, tokens);
    KeyOrClose(c, m, tokens[0]);
    if tokens[0].CloseObject? {
      members, rest := NoMembers, tokens[1..];
    } else {
      var key := tokens[0].text;
      assert tokens == [tokens[0]] + tokens[1..];
      AfterKey(c, m, m1, tokens[1..]);
      var value, more := ParseValue(c, m1, tokens[1..]);
      TokensNonempty(value);
      AfterMemberValue(m1, value);
      var tail;
      tail, rest := ParseMembers(c, After(m1, value), more);
      members := Member(key, value, tail);
    }
  }

  lemma TokensNonempty(j: Json)
    ensures |Tokens(j)| > 0
  {
  }

  lemma KeyOrClose(c: Context, m: Machine, token: Token)
    requires WantsKey(m) && Sound(m) && Room(c, m, 0, 0) && Step(c, m, token).Some?
    ensures token.CloseObject? || token.Text?
    ensures token.Text? ==> var m1 := Step(c, m, token).value;
      Ready(m1) && Sound(m1) && Room(c, m1, 0, 0) && |m1.frames| > 0 && Top(m1).object_ && !Top(m1).wantKey
  {
  }

  /** After a key comes no closing bracket. */
  lemma AfterKey(c: Context, m: Machine, m1: Machine, tokens: seq<Token>)
    requires |m1.frames| > 0 && Top(m1).object_ && !Top(m1).wantKey && !m1.complete && RunFrom(c, m1, tokens).Some?
    ensures |tokens| > 0 ==> !tokens[0].CloseArray?
  {
  }

  lemma AfterMemberValue(m1: Machine, value: Json)
    requires |m1.frames| > 0 && Top(m1).object_ && !m1.complete
    ensures WantsKey(After(m1, value))
  {
  }

  lemma NotDone(c: Context, m: Machine, tokens: seq<Token>)
    requires !m.complete && Finishes(c, m, tokens)
    ensures |tokens| > 0
  {
  }

  /** What a token can be where a value may start, and where it leads. */
  lemma FirstOfValue(c: Context, m: Machine, token: Token)
    requires Ready(m) && Sound(m) && Step(c, m, token).Some?
    ensures !token.CloseObject?
    ensures token.OpenArray? ==> InArray(Step(c, m, token).value)
    ensures token.OpenObject? ==> WantsKey(Step(c, m, token).value)
    ensures token.OpenArray? || token.OpenObject? ==> Room(c, Step(c, m, token).value, 0, 0) && Sound(Step(c, m, token).value)
  {
  }

  /** Having read a prefix that is a tree, the tree fits and the rest finishes after it. */
  lemma Prefix(c: Context, m: Machine, j: Json, tokens: seq<Token>, rest: seq<Token>)
    requires Ready(m) && Finishes(c, m, tokens) && tokens == Tokens(j) + rest
    ensures Fits(c, m, j) && Finishes(c, After(m, j), rest)
  {
    hide RunFrom, Unique;
    RunAppend(c, m, Tokens(j), rest);
    ReadValue(c, m, j);
  }

  /** The machine accepts exactly the token streams of trees with unique names within the limits. */
  lemma AcceptsIffUnique(c: Context, tokens: seq<Token>)
    ensures Accepts(c, tokens) <==>
      exists j :: tokens == Tokens(j) && Unique(j, c.types, c.root, c.fold) && WithinLimits(j, c.limits)
  {
    hide Unique;
    if Accepts(c, tokens) {
      NotClosed(c, tokens);
      var j, rest := ParseValue(c, START, tokens);
      if |rest| > 0 {
        NoMore(c, After(START, j), rest[0]);
        assert false;
      }
      assert tokens == Tokens(j);
      assert Fits(c, START, j);
    }
    if j :| tokens == Tokens(j) && Unique(j, c.types, c.root, c.fold) && WithinLimits(j, c.limits) {
      ReadValue(c, START, j);
    }
  }

  lemma NotClosed(c: Context, tokens: seq<Token>)
    requires RunFrom(c, START, tokens).Some?
    ensures |tokens| > 0 ==> !tokens[0].CloseArray?
  {
  }

  lemma NoMore(c: Context, m: Machine, token: Token)
    requires m.complete && |m.frames| == 0
    ensures Step(c, m, token).None?
  {
  }
}
