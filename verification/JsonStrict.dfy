/**
 Typed validation of a token stream in one pass (internal/jsonstrict/json.go): struct members are
 tracked by a 64-bit mask of field numbers and a set of the remaining names.
 */
module JsonStrict {
  import opened Options
  import opened Bits
  import opened JsonTrees
  import opened JsonDescriptors

  datatype MaskFrame = MaskFrame(object_: bool, wantKey: bool, typ: Option<TypeId>, valueType: Option<TypeId>,
                                 descriptor: Option<Descriptor>, fieldsSeen: nat, members: set<string>)

  /* ---------- Mask and set together are one plain set ---------- */

  predicate InMask(d: Option<Descriptor>, name: string) {
    d.Some? && name in d.value.folded && d.value.folded[name].id < 64
  }

  predicate Seen(f: MaskFrame, name: string) {
    if InMask(f.descriptor, name) then Test(f.fieldsSeen, f.descriptor.value.folded[name].id) else name in f.members
  }

  ghost predicate SameNames(f: MaskFrame, names: set<string>) {
    forall n :: n in names <==> Seen(f, n)
  }

  ghost predicate Describes(c: Context, f: MaskFrame) {
    if ShapeOf(c.types, f.typ).Struct? then
      f.descriptor.Some? && DescriptorOk(f.descriptor.value, ShapeOf(c.types, f.typ).fields, c.fold)
    else
      f.descriptor.None?
  }

  ghost predicate FrameOk(c: Context, f: MaskFrame, a: Frame) {
    && f.object_ == a.object_ && f.wantKey == a.wantKey && f.typ == a.typ && f.valueType == a.valueType
    && Describes(c, f) && SameNames(f, a.names)
  }

  ghost predicate FramesOk(c: Context, frames: seq<MaskFrame>, m: Machine) {
    |frames| == |m.frames| && forall i :: 0 <= i < |frames| ==> FrameOk(c, frames[i], m.frames[i])
  }

  /** Setting a number in the mask adds exactly the one name that has it. */
  lemma MaskAdds(c: Context, f: MaskFrame, names: set<string>, name: string)
    requires Describes(c, f) && SameNames(f, names) && InMask(f.descriptor, name)
    ensures SameNames(f.(fieldsSeen := Set(f.fieldsSeen, f.descriptor.value.folded[name].id)), names + {name})
  {
    var d := f.descriptor.value;
    var f' := f.(fieldsSeen := Set(f.fieldsSeen, d.folded[name].id));
    forall n ensures n in names + {name} <==> Seen(f', n) {
      if InMask(f.descriptor, n) { TestSet(f.fieldsSeen, d.folded[name].id, d.folded[n].id); }
    }
  }

  lemma SetAdds(f: MaskFrame, names: set<string>, name: string)
    requires SameNames(f, names) && !InMask(f.descriptor, name)
    ensures SameNames(f.(members := f.members + {name}), names + {name})
  {
  }

  lemma NothingSeen(f: MaskFrame)
    requires f.fieldsSeen == 0 && f.members == {}
    ensures SameNames(f, {})
  {
    forall n ensures !Seen(f, n) {
      if InMask(f.descriptor, n) { TestZero(f.descriptor.value.folded[n].id); }
    }
  }

  /** Reads one key: refuses it exactly when its canonical name was seen, and records it. */
  method ReadKey(c: Context, f: MaskFrame, key: string, ghost a: Frame) returns (ok: bool, f': MaskFrame)
    requires FrameOk(c, f, a)
    ensures ok <==> Canonical(c.types, a.typ, key, c.fold) !in a.names
    ensures ok ==>
      FrameOk(c, f', a.(names := a.names + {Canonical(c.types, a.typ, key, c.fold)},
                        valueType := MemberType(c.types, a.typ, key, c.fold), wantKey := false))
  {
    ghost var name := Canonical(c.types, a.typ, key, c.fold);
    f' := f;
    var field, canonical, known := FieldInfo(None, 0), key, false;
    if f.descriptor.Some? {
      var found := LookupCanonical(f.descriptor.value, key, c.fold);
      field, canonical, known := found.0, found.1, found.2;
      LookupMeaning(f.descriptor.value, ShapeOf(c.types, f.typ).fields, key, c.fold);
      LookupType(f.descriptor.value, ShapeOf(c.types, f.typ).fields, key, c.fold, c.types, f.typ);
    }
    hide DescriptorOk, MemberType;
    assert known && field.id < 64 <==> InMask(f.descriptor, name);
    if known && field.id < 64 {
      if Test(f.fieldsSeen, field.id) { return false, f'; }
      MaskAdds(c, f, a.names, name);
      f' := f'.(fieldsSeen := Set(f.fieldsSeen, field.id));
    } else {
      assert canonical == name;
      if canonical in f.members { return false, f'; }
      SetAdds(f, a.names, name);
      f' := f'.(members := f.members + {canonical});
    }
    var valueType: Option<TypeId> := None;
    if known {
      valueType := field.typ;
    } else if f.typ.Some? && f.typ.value in c.types && c.types[f.typ.value].Mapping? {
      valueType := c.types[f.typ.value].elem;
    }
    KeyType(c, f, key, field, known);
    f' := f'.(valueType := valueType, wantKey := false);
    SameSeen(f'.(valueType := f.valueType, wantKey := f.wantKey), f', a.names + {name});
    ok := true;
  }

  /** What a key's value is expected to be. */
  ghost function ValueTypeAfter(c: Context, f: MaskFrame, field: FieldInfo, known: bool): Option<TypeId> {
    if known then field.typ
    else if ShapeOf(c.types, f.typ).Mapping? then ShapeOf(c.types, f.typ).elem
    else None
  }

  lemma KeyType(c: Context, f: MaskFrame, key: string, field: FieldInfo, known: bool)
    requires ShapeOf(c.types, f.typ).Struct? ==> MemberType(c.types, f.typ, key, c.fold) == if known then field.typ else None
    requires !ShapeOf(c.types, f.typ).Struct? ==> !known
    ensures ValueTypeAfter(c, f, field, known) == MemberType(c.types, f.typ, key, c.fold)
  {
  }

  lemma SameSeen(f: MaskFrame, g: MaskFrame, names: set<string>)
    requires SameNames(f, names) && g.descriptor == f.descriptor && g.fieldsSeen == f.fieldsSeen && g.members == f.members
    ensures SameNames(g, names)
  {
    forall n ensures Seen(g, n) == Seen(f, n) {
    }
  }

  /* ---------- The token loop ---------- */

  datatype Progress = Progress(frames: seq<MaskFrame>, started: bool, complete: bool, values: nat)

  ghost predicate Matches(c: Context, s: Progress, m: Machine) {
    FramesOk(c, s.frames, m) && s.started == m.started && s.complete == m.complete && s.values == m.values
  }

  predicate CanBegin(s: Progress) {
    if |s.frames| == 0 then !s.started
    else var f := s.frames[|s.frames| - 1]; !(f.object_ && f.wantKey)
  }

  function Complete(s: Progress): Progress {
    if |s.frames| == 0 then s.(complete := true)
    else
      var n := |s.frames| - 1;
      if s.frames[n].object_ then s.(frames := s.frames[n := s.frames[n].(wantKey := true)]) else s
  }

  lemma CompleteMatches(c: Context, s: Progress, m: Machine)
    requires Matches(c, s, m)
    ensures Matches(c, Complete(s), Completed(m))
  {
    if |s.frames| > 0 && s.frames[|s.frames| - 1].object_ {
      var n := |s.frames| - 1;
      assert FrameOk(c, s.frames[n], m.frames[n]);
      SameSeen(s.frames[n], s.frames[n].(wantKey := true), m.frames[n].names);
      assert FrameOk(c, s.frames[n].(wantKey := true), Top(m).(wantKey := true));
      hide FrameOk;
    }
  }

  method Open(c: Context, s: Progress, object_: bool, cache: DescriptorCache, ghost m: Machine) returns (ok: bool, s': Progress)
    requires Matches(c, s, m) && !s.complete && cache.Valid() && cache.types == c.types && cache.fold == c.fold
    modifies cache
    ensures cache.Valid()
    ensures ok <==> StepOpen(c, m, object_).Some?
    ensures ok ==> Matches(c, s', StepOpen(c, m, object_).value)
  {
    hide FrameOk;
    s' := s.(values := s.values + 1);
    if c.limits.maxValues > 0 && s'.values > c.limits.maxValues { return false, s'; }
    if c.limits.maxDepth > 0 && |s.frames| >= c.limits.maxDepth { return false, s'; }
    TopOk(c, s, m);
    if !CanBegin(s) { return false, s'; }
    if |s.frames| == 0 { s' := s'.(started := true); }
    var t := if |s.frames| == 0 then c.root else s.frames[|s.frames| - 1].valueType;
    var valueType := t;
    var descriptor: Option<Descriptor> := None;
    if t.None? || t.value !in c.types || c.types[t.value].Untyped? {
      valueType := None;
    } else if c.types[t.value].Sequence? || c.types[t.value].Mapping? {
      valueType := c.types[t.value].elem;
    } else if c.types[t.value].Struct? {
      var d := cache.For(t.value, c.types[t.value].fields, c.fold);
      descriptor := Some(d);
    }
    var f := MaskFrame(object_, object_, t, valueType, descriptor, 0, {});
    NothingSeen(f);
    FreshFrame(c, f);
    s' := s'.(frames := s'.frames + [f]);
    ok := true;
  }

  lemma FreshFrame(c: Context, f: MaskFrame)
    requires Describes(c, f) && SameNames(f, {})
    ensures FrameOk(c, f, Frame(f.object_, f.wantKey, f.typ, f.valueType, {}))
  {
  }

  lemma TopOk(c: Context, s: Progress, m: Machine)
    requires Matches(c, s, m)
    ensures |s.frames| == |m.frames|
    ensures |s.frames| > 0 ==>
              var f := s.frames[|s.frames| - 1];
              && FrameOk(c, f, Top(m))
              && f.object_ == Top(m).object_ && f.wantKey == Top(m).wantKey && f.valueType == Top(m).valueType && f.typ == Top(m).typ
  {
  }

  method Close(c: Context, s: Progress, object_: bool, ghost m: Machine) returns (ok: bool, s': Progress)
    requires Matches(c, s, m) && !s.complete
    ensures ok <==> StepClose(m, object_).Some?
    ensures ok ==> Matches(c, s', StepClose(m, object_).value)
  {
    hide FrameOk;
    s' := s;
    TopOk(c, s, m);
    if |s.frames| == 0 { return false, s'; }
    var f := s.frames[|s.frames| - 1];
    if f.object_ != object_ || (f.object_ && !f.wantKey) { return false, s'; }
    s' := s.(frames := s.frames[..|s.frames| - 1]);
    CompleteMatches(c, s', m.(frames := m.frames[..|m.frames| - 1]));
    s' := Complete(s');
    ok := true;
  }

  method Key(c: Context, s: Progress, key: string, ghost m: Machine) returns (ok: bool, s': Progress)
    requires Matches(c, s, m) && WantsKey(m)
    ensures ok <==> StepKey(c, m, key).Some?
    ensures ok ==> Matches(c, s', StepKey(c, m, key).value)
  {
    hide FrameOk, MemberType, Canonical;
    TopOk(c, s, m);
    s' := s;
    var n := |s.frames| - 1;
    var fresh_, f := ReadKey(c, s.frames[n], key, Top(m));
    if !fresh_ { return false, s'; }
    s' := s.(frames := s.frames[..n] + [f]);
    ok := true;
  }

  method Value(c: Context, s: Progress, ghost m: Machine) returns (ok: bool, s': Progress)
    requires Matches(c, s, m) && !s.complete
    ensures ok <==> StepScalar(c, m).Some?
    ensures ok ==> Matches(c, s', StepScalar(c, m).value)
  {
    hide FrameOk;
    s' := s.(values := s.values + 1);
    if c.limits.maxValues > 0 && s'.values > c.limits.maxValues { return false, s'; }
    TopOk(c, s, m);
    if !CanBegin(s) { return false, s'; }
    if |s.frames| == 0 { s' := s'.(started := true); }
    CompleteMatches(c, s', Begun(m.(values := m.values + 1)));
    s' := Complete(s');
    ok := true;
  }

  method Next(c: Context, s: Progress, token: Token, cache: DescriptorCache, ghost m: Machine) returns (ok: bool, s': Progress)
    requires Matches(c, s, m) && cache.Valid() && cache.types == c.types && cache.fold == c.fold
    modifies cache
    ensures cache.Valid()
    ensures ok <==> Step(c, m, token).Some?
    ensures ok ==> Matches(c, s', Step(c, m, token).value)
  {
    hide FrameOk, StepOpen, StepClose, StepKey, StepScalar;
    if s.complete {
      Closed(c, m, token);
      return false, s;
    }
    TopOk(c, s, m);
    if token.OpenObject? || token.OpenArray? {
      ok, s' := Open(c, s, token.OpenObject?, cache, m);
    } else if token.CloseObject? || token.CloseArray? {
      ok, s' := Close(c, s, token.CloseObject?, m);
    } else if |s.frames| > 0 && s.frames[|s.frames| - 1].object_ && s.frames[|s.frames| - 1].wantKey {
      if !token.Text? { return false, s; }
      ok, s' := Key(c, s, token.text, m);
    } else {
      ok, s' := Value(c, s, m);
    }
  }

  lemma Closed(c: Context, m: Machine, token: Token)
    requires m.complete
    ensures Step(c, m, token).None?
  {
  }

  /**
   Validation of a token stream against a type: accepts exactly the streams of trees in which no
   struct repeats a folded name and no other object an exact one, within the limits.
   */
  method Validate(c: Context, tokens: seq<Token>, cache: DescriptorCache) returns (ok: bool)
    requires cache.Valid() && cache.types == c.types && cache.fold == c.fold
    modifies cache
    ensures cache.Valid()
    ensures ok <==> exists j :: tokens == Tokens(j) && Unique(j, c.types, c.root, c.fold) && JsonTrees.WithinLimits(j, c.limits)
  {
    hide RunFrom, Step, Matches, Unique, JsonTrees.WithinLimits;
    AcceptsIffUnique(c, tokens);
    var s := Progress([], false, false, 0);
    ghost var m := START;
    RunNone(c, START);
    assert tokens[..0] == [];
    AtStart(c, s);
    for i := 0 to |tokens|
      invariant cache.Valid()
      invariant Matches(c, s, m) && RunFrom(c, START, tokens[..i]) == Some(m)
    {
      var stepped, next := Next(c, s, tokens[i], cache, m);
      RunNext(c, tokens, i, m);
      if !stepped { return false; }
      s := next;
      m := Step(c, m, tokens[i]).value;
    }
    assert tokens[..|tokens|] == tokens;
    SameCompletion(c, s, m);
    ok := s.complete;
  }

  lemma AtStart(c: Context, s: Progress)
    requires s == Progress([], false, false, 0)
    ensures Matches(c, s, START)
  {
  }

  lemma SameCompletion(c: Context, s: Progress, m: Machine)
    requires Matches(c, s, m)
    ensures s.complete == m.complete
  {
  }

  /** One more token; a refused token refuses the whole stream. */
  lemma RunNext(c: Context, tokens: seq<Token>, i: int, m: Machine)
    requires 0 <= i < |tokens| && RunFrom(c, START, tokens[..i]) == Some(m)
    ensures RunFrom(c, START, tokens[..i + 1]) == Step(c, m, tokens[i])
    ensures Step(c, m, tokens[i]).None? ==> RunFrom(c, START, tokens).None?
  {
    hide RunFrom, Step;
    assert tokens[..i + 1] == tokens[..i] + [tokens[i]];
    RunAppend(c, START, tokens[..i], [tokens[i]]);
    RunOne(c, m, tokens[i]);
    assert tokens == tokens[..i + 1] + tokens[i + 1..];
    RunAppend(c, START, tokens[..i + 1], tokens[i + 1..]);
  }
}
