/**
 Field descriptors of struct types (internal/jsonstrict/fields.go): exact and folded lookup with
 one number per folded name, and a bounded first-in-first-out cache of descriptors.
 */
module JsonDescriptors {
  import opened Options
  import opened FiniteSets
  import opened JsonTrees

  datatype FieldInfo = FieldInfo(typ: Option<TypeId>, id: nat)

  datatype Descriptor = Descriptor(exact: map<string, FieldInfo>, folded: map<string, FieldInfo>, bytes: nat)

  ghost predicate NamesDistinct(fields: seq<Field>) {
    forall i, j :: 0 <= i < j < |fields| ==> fields[i].name != fields[j].name
  }

  ghost predicate FoldedOk(folded: map<string, FieldInfo>, fields: seq<Field>, fold: string -> string) {
    && (forall x :: x in folded <==> FoldedField(fields, x, fold).Some?)
    && (forall x :: x in folded ==> folded[x].typ == FoldedField(fields, x, fold).value.typ && folded[x].id < |folded|)
    && (forall x, y :: x in folded && y in folded && folded[x].id == folded[y].id ==> x == y)
  }

  /** Exact names keep their own type; all names of one fold share a number. */
  ghost predicate ExactOk(exact: map<string, FieldInfo>, folded: map<string, FieldInfo>, fields: seq<Field>, fold: string -> string) {
    && (forall x :: x in exact <==> ExactField(fields, x).Some?)
    && (forall x :: x in exact ==> exact[x].typ == ExactField(fields, x).value.typ && fold(x) in folded && exact[x].id == folded[fold(x)].id)
  }

  ghost predicate DescriptorOk(d: Descriptor, fields: seq<Field>, fold: string -> string) {
    FoldedOk(d.folded, fields, fold) && ExactOk(d.exact, d.folded, fields, fold)
  }

  lemma {:induction false} FoldedFieldAppend(fields: seq<Field>, f: Field, x: string, fold: string -> string)
    ensures FoldedField(fields + [f], x, fold)
         == if FoldedField(fields, x, fold).Some? then FoldedField(fields, x, fold) else if fold(f.name) == x then Some(f) else None
    decreases |fields|
  {
    if |fields| == 0 {
      assert fields + [f] == [f];
      assert [f][1..] == [];
    } else {
      assert (fields + [f])[0] == fields[0] && (fields + [f])[1..] == fields[1..] + [f];
      FoldedFieldAppend(fields[1..], f, x, fold);
    }
  }

  lemma {:induction false} ExactFieldAppend(fields: seq<Field>, f: Field, x: string)
    ensures ExactField(fields + [f], x)
         == if ExactField(fields, x).Some? then ExactField(fields, x) else if f.name == x then Some(f) else None
    decreases |fields|
  {
    if |fields| == 0 {
      assert fields + [f] == [f];
      assert [f][1..] == [];
    } else {
      assert (fields + [f])[0] == fields[0] && (fields + [f])[1..] == fields[1..] + [f];
      ExactFieldAppend(fields[1..], f, x);
    }
  }

  lemma FoldedStep(folded: map<string, FieldInfo>, fields: seq<Field>, f: Field, fold: string -> string)
    requires FoldedOk(folded, fields, fold)
    ensures FoldedOk(if fold(f.name) in folded then folded else folded[fold(f.name) := FieldInfo(f.typ, |folded|)], fields + [f], fold)
  {
    hide FoldedField;
    forall x ensures FoldedField(fields + [f], x, fold)
         == if FoldedField(fields, x, fold).Some? then FoldedField(fields, x, fold) else if fold(f.name) == x then Some(f) else None {
      FoldedFieldAppend(fields, f, x, fold);
    }
  }

  lemma ExactStep(exact: map<string, FieldInfo>, folded: map<string, FieldInfo>, folded': map<string, FieldInfo>, fields: seq<Field>, f: Field, fold: string -> string)
    requires ExactOk(exact, folded, fields, fold) && ExactField(fields, f.name).None? && fold(f.name) in folded'
    requires forall x :: x in folded ==> x in folded' && folded'[x] == folded[x]
    ensures ExactOk(exact[f.name := FieldInfo(f.typ, folded'[fold(f.name)].id)], folded', fields + [f], fold)
  {
    hide ExactField;
    forall x ensures ExactField(fields + [f], x) == if ExactField(fields, x).Some? then ExactField(fields, x) else if f.name == x then Some(f) else None {
      ExactFieldAppend(fields, f, x);
    }
  }

  /** The storage a descriptor is charged for: a fixed part, and a fixed part and both spellings for each name. */
  ghost function Footprint(fields: seq<Field>, fold: string -> string): nat {
    if fields == [] then 128
    else
      var f := fields[|fields| - 1];
      Footprint(fields[..|fields| - 1], fold) + 128 + |f.name| + |fold(f.name)|
  }

  method BuildDescriptor(fields: seq<Field>, fold: string -> string) returns (d: Descriptor)
    requires NamesDistinct(fields)
    ensures DescriptorOk(d, fields, fold) && d.bytes == Footprint(fields, fold)
  {
    hide FoldedOk, ExactOk;
    d := Descriptor(map[], map[], 128);
    EmptyOk(fold);
    assert fields[..0] == [];
    for i := 0 to |fields|
      invariant DescriptorOk(d, fields[..i], fold) && d.bytes == Footprint(fields[..i], fold)
    {
      var f := fields[i];
      var x := fold(f.name);
      assert fields[..i + 1] == fields[..i] + [f];
      FoldedStep(d.folded, fields[..i], f, fold);
      var folded := if x in d.folded then d.folded else d.folded[x := FieldInfo(f.typ, |d.folded|)];
      assert ExactField(fields[..i], f.name).None?;
      ExactStep(d.exact, d.folded, folded, fields[..i], f, fold);
      d := Descriptor(d.exact[f.name := FieldInfo(f.typ, folded[x].id)], folded, d.bytes + 128 + |f.name| + |x|);
    }
    assert fields[..|fields|] == fields;
  }

  lemma EmptyOk(fold: string -> string)
    ensures DescriptorOk(Descriptor(map[], map[], 128), [], fold)
  {
  }

  /* ---------- Lookup ---------- */

  /** The field of a key, the name under which its repetition is noticed, and whether there is one. */
  function LookupCanonical(d: Descriptor, key: string, fold: string -> string): (FieldInfo, string, bool) {
    if key in d.exact then (d.exact[key], if d.exact[key].id >= 64 then fold(key) else key, true)
    else if fold(key) in d.folded then (d.folded[fold(key)], fold(key), true)
    else (FieldInfo(None, 0), fold(key), false)
  }

  /** Known keys are those whose fold some field has; they carry that fold's number and the right type. */
  lemma LookupMeaning(d: Descriptor, fields: seq<Field>, key: string, fold: string -> string)
    requires DescriptorOk(d, fields, fold)
    ensures var (field, canonical, known) := LookupCanonical(d, key, fold);
            && (known <==> fold(key) in d.folded)
            && (known ==> field.id == d.folded[fold(key)].id)
            && (!known || field.id >= 64 ==> canonical == fold(key))
  {
    if key in d.exact { assert fold(key) in d.folded; }
  }

  lemma LookupType(d: Descriptor, fields: seq<Field>, key: string, fold: string -> string, types: Types, t: Option<TypeId>)
    requires DescriptorOk(d, fields, fold) && ShapeOf(types, t) == Struct(fields)
    ensures var (field, _, known) := LookupCanonical(d, key, fold);
            MemberType(types, t, key, fold) == if known then field.typ else None
  {
  }

  /* ---------- The cache ---------- */

  const MAX_ENTRIES := 128
  const MAX_BYTES := 0x40000

  ghost predicate TypesOk(types: Types) {
    forall t :: t in types && types[t].Struct? ==> NamesDistinct(types[t].fields)
  }

  function TotalBytes(entries: map<TypeId, Descriptor>, order: seq<TypeId>): nat {
    if |order| == 0 then 0
    else (if order[0] in entries then entries[order[0]].bytes else 0) + TotalBytes(entries, order[1..])
  }

  ghost predicate EntriesOk(entries: map<TypeId, Descriptor>, types: Types, fold: string -> string) {
    forall t :: t in entries ==> t in types && types[t].Struct? && DescriptorOk(entries[t], types[t].fields, fold)
  }

  ghost predicate OrderOk(entries: map<TypeId, Descriptor>, order: seq<TypeId>) {
    Distinct(order) && forall t :: t in order <==> t in entries
  }

  lemma {:induction false} BytesAppend(entries: map<TypeId, Descriptor>, order: seq<TypeId>, t: TypeId, d: Descriptor)
    requires t !in order
    ensures TotalBytes(entries[t := d], order + [t]) == TotalBytes(entries, order) + d.bytes
    decreases |order|
  {
    if |order| == 0 {
      assert order + [t] == [t] && [t][1..] == [];
    } else {
      assert (order + [t])[0] == order[0] && (order + [t])[1..] == order[1..] + [t];
      BytesAppend(entries, order[1..], t, d);
    }
  }

  lemma {:induction false} BytesRemove(entries: map<TypeId, Descriptor>, order: seq<TypeId>, t: TypeId)
    requires t !in order
    ensures TotalBytes(entries - {t}, order) == TotalBytes(entries, order)
    decreases |order|
  {
    if |order| > 0 { BytesRemove(entries, order[1..], t); }
  }

  lemma {:induction false} BytesAgree(a: map<TypeId, Descriptor>, b: map<TypeId, Descriptor>, order: seq<TypeId>)
    requires forall t :: t in order ==> t in a && t in b && a[t] == b[t]
    ensures TotalBytes(a, order) == TotalBytes(b, order)
    decreases |order|
  {
    if |order| > 0 {
      assert forall t :: t in order[1..] ==> t in order;
      BytesAgree(a, b, order[1..]);
    }
  }

  /** Without its `k` oldest descriptors the cache has room for one more of this size. */
  ghost predicate HasRoom(entries: map<TypeId, Descriptor>, order: seq<TypeId>, size: nat, k: nat) {
    k <= |order| && |order| - k < MAX_ENTRIES && TotalBytes(entries, order[k..]) + size <= MAX_BYTES
  }

  /** What is left of a cache, and in which order, after making room: all but the fewest oldest ones. */
  ghost predicate Trimmed(entries: map<TypeId, Descriptor>, order: seq<TypeId>, size: nat, k: nat) {
    HasRoom(entries, order, size, k) && forall j :: 0 <= j < k ==> !HasRoom(entries, order, size, j)
  }

  /** The cache is what it was without its `k` oldest descriptors. */
  ghost predicate Since(was: map<TypeId, Descriptor>, order: seq<TypeId>, entries: map<TypeId, Descriptor>, k: nat) {
    && k <= |order| && (forall x :: x in entries <==> x in order[k..])
    && (forall x :: x in order[k..] ==> x in was && x in entries && entries[x] == was[x])
  }

  /** The cache after storing a new descriptor as its youngest one. */
  ghost predicate Stored(was: map<TypeId, Descriptor>, order: seq<TypeId>,
                         entries: map<TypeId, Descriptor>, order': seq<TypeId>, t: TypeId, d: Descriptor)
  {
    && t in entries && entries[t] == d
    && exists k: nat :: Trimmed(was, order, d.bytes, k) && order' == order[k..] + [t] && Since(was, order, entries - {t}, k)
  }

  class DescriptorCache {
    ghost const types: Types
    ghost const fold: string -> string
    var entries: map<TypeId, Descriptor>
    var order: seq<TypeId>
    var bytes: nat

    ghost predicate Valid()
      reads this
    {
      && TypesOk(types) && EntriesOk(entries, types, fold) && OrderOk(entries, order)
      && bytes == TotalBytes(entries, order) && |order| <= MAX_ENTRIES && bytes <= MAX_BYTES
    }

    constructor (ghost types: Types, ghost fold: string -> string)
      requires TypesOk(types)
      ensures Valid() && this.types == types && this.fold == fold && entries == map[]
    {
      this.types, this.fold := types, fold;
      entries, order, bytes := map[], [], 0;
    }

    /** Drops the oldest descriptor. */
    method Evict()
      requires Valid() && |order| > 0
      modifies this
      ensures Valid() && order == old(order)[1..] && bytes <= old(bytes)
      ensures entries == old(entries) - {old(order)[0]}
    {
      var oldest := order[0];
      assert oldest !in order[1..];
      BytesRemove(entries, order[1..], oldest);
      order := order[1..];
      bytes := bytes - entries[oldest].bytes;
      entries := entries - {oldest};
    }

    /** Drops as few of the oldest descriptors as will make room. */
    method MakeRoom(size: nat) returns (ghost k: nat)
      requires Valid() && size <= MAX_BYTES
      modifies this
      ensures Valid() && |order| < MAX_ENTRIES && bytes + size <= MAX_BYTES
      ensures Trimmed(old(entries), old(order), size, k) && order == old(order)[k..] && Since(old(entries), old(order), entries, k)
    {
      hide EntriesOk, TypesOk, TotalBytes, HasRoom, Since, Distinct;
      k := 0;
      assert order[0..] == order;
      SinceStart(entries, order);
      while |order| >= MAX_ENTRIES || bytes + size > MAX_BYTES
        invariant Valid()
        invariant k <= |old(order)| && order == old(order)[k..] && Since(old(entries), old(order), entries, k)
        invariant forall j :: 0 <= j < k ==> !HasRoom(old(entries), old(order), size, j)
        decreases |order|
      {
        NothingLeft(entries, order);
        RoomNow(old(entries), old(order), entries, size, k);
        ghost var was := entries;
        Evict();
        SinceStep(old(entries), old(order), was, entries, k);
        assert old(order)[k..][1..] == old(order)[k + 1..];
        k := k + 1;
      }
      RoomNow(old(entries), old(order), entries, size, k);
    }

    /**
     The descriptor of a struct type, cached or built. A built one is kept, unless too large, in place of as
     few of the oldest descriptors as will make room for it.
     */
    method For(t: TypeId, fields: seq<Field>, folding: string -> string) returns (d: Descriptor)
      requires Valid() && t in types && types[t] == Struct(fields) && folding == fold
      modifies this
      ensures Valid() && DescriptorOk(d, fields, fold)
      ensures t in old(entries) ==> d == old(entries)[t]
      ensures t !in old(entries) ==> d.bytes == Footprint(fields, fold)
      ensures if t in old(entries) || d.bytes > MAX_BYTES then entries == old(entries) && order == old(order)
              else Stored(old(entries), old(order), entries, order, t, d)
    {
      hide DescriptorOk, TotalBytes, Footprint, Trimmed, Since;
      if t in entries {
        return entries[t];
      }
      d := BuildDescriptor(fields, folding);
      if d.bytes > MAX_BYTES { return; }
      ghost var k := MakeRoom(d.bytes);
      SinceLacks(old(entries), old(order), entries, k, t);
      assert t !in order;
      BytesAppend(entries, order, t, d);
      assert entries[t := d] - {t} == entries;
      entries := entries[t := d];
      order := order + [t];
      bytes := bytes + d.bytes;
    }
  }

  lemma SinceStart(entries: map<TypeId, Descriptor>, order: seq<TypeId>)
    requires OrderOk(entries, order)
    ensures Since(entries, order, entries, 0)
  {
    assert order[0..] == order;
  }

  lemma RoomNow(was: map<TypeId, Descriptor>, order: seq<TypeId>, entries: map<TypeId, Descriptor>, size: nat, k: nat)
    requires Since(was, order, entries, k)
    ensures HasRoom(was, order, size, k) <==> |order[k..]| < MAX_ENTRIES && TotalBytes(entries, order[k..]) + size <= MAX_BYTES
  {
    BytesAgree(entries, was, order[k..]);
  }

  lemma SinceStep(was: map<TypeId, Descriptor>, order: seq<TypeId>, a: map<TypeId, Descriptor>, b: map<TypeId, Descriptor>, k: nat)
    requires Distinct(order) && k < |order| && Since(was, order, a, k) && b == a - {order[k]}
    ensures Since(was, order, b, k + 1)
  {
    forall x ensures x in order[k..] <==> x == order[k] || x in order[k + 1..] {
      assert order[k..] == [order[k]] + order[k + 1..];
    }
    assert order[k] !in order[k + 1..];
  }

  lemma SinceLacks(was: map<TypeId, Descriptor>, order: seq<TypeId>, entries: map<TypeId, Descriptor>, k: nat, t: TypeId)
    requires Since(was, order, entries, k) && t !in was
    ensures t !in entries
  {
  }

  /** An empty cache holds no bytes, so a descriptor within the bound always fits in the end. */
  lemma NothingLeft(entries: map<TypeId, Descriptor>, order: seq<TypeId>)
    ensures |order| == 0 ==> TotalBytes(entries, order) == 0
  {
  }
}
