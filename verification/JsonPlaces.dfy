/**
 Where names may repeat, said without the recursion: every value inside a document has a place, a
 type that follows from the place, and a document is accepted when no place repeats a name.
 */
module JsonPlaces {
  import opened Options
  import opened JsonTrees

  function Elements(items: Items): (r: seq<Json>) {
    if items.NoItems? then [] else [items.head] + Elements(items.tail)
  }

  function Keys(members: Members): (r: seq<string>) {
    if members.NoMembers? then [] else [members.key] + Keys(members.rest)
  }

  function Contents(members: Members): (r: seq<Json>)
    ensures |r| == |Keys(members)|
  {
    if members.NoMembers? then [] else [members.value] + Contents(members.rest)
  }

  /** A value and the type expected of it. */
  datatype Place = Place(value: Json, typ: Option<TypeId>)

  /** Elements of slices, arrays and maps have their element type; a struct or scalar passes its own on. */
  ghost predicate ElementTyped(types: Types, t: Option<TypeId>, e: Option<TypeId>) {
    if t.None? || t.value !in types || types[t.value] == Untyped then e == None
    else if types[t.value] == Scalar || types[t.value].Struct? then e == t
    else types[t.value] == Sequence(e) || types[t.value] == Mapping(e)
  }

  /** A struct member has the type of the field of its name, or else of the first field of its fold. */
  ghost predicate FieldTyped(fields: seq<Field>, key: string, fold: string -> string, e: Option<TypeId>) {
    || (exists i :: 0 <= i < |fields| && fields[i].name == key && fields[i].typ == e && forall k :: 0 <= k < i ==> fields[k].name != key)
    || (&& (forall f :: f in fields ==> f.name != key)
        && exists i :: 0 <= i < |fields| && fold(fields[i].name) == fold(key) && fields[i].typ == e
             && forall k :: 0 <= k < i ==> fold(fields[k].name) != fold(key))
    || (e == None && forall f :: f in fields ==> fold(f.name) != fold(key))
  }

  ghost predicate MemberTyped(types: Types, t: Option<TypeId>, key: string, fold: string -> string, e: Option<TypeId>) {
    if t.Some? && t.value in types && types[t.value].Struct? then FieldTyped(types[t.value].fields, key, fold, e)
    else if t.Some? && t.value in types && types[t.value].Mapping? then types[t.value] == Mapping(e)
    else e == None
  }

  /** The one place is directly inside the other. */
  ghost predicate Inside(types: Types, fold: string -> string, outer: Place, inner: Place) {
    || (outer.value.Arr? && inner.value in Elements(outer.value.items) && ElementTyped(types, outer.typ, inner.typ))
    || (outer.value.Obj?
        && exists i :: 0 <= i < |Keys(outer.value.members)| && Contents(outer.value.members)[i] == inner.value
             && MemberTyped(types, outer.typ, Keys(outer.value.members)[i], fold, inner.typ))
  }

  /** Two members of a struct have one fold, or two members of another object one name. */
  ghost predicate Repeats(types: Types, fold: string -> string, place: Place) {
    && place.value.Obj?
    && exists i, j :: 0 <= i < j < |Keys(place.value.members)|
         && Clash(types, fold, place.typ, Keys(place.value.members)[i], Keys(place.value.members)[j])
  }

  ghost predicate Clash(types: Types, fold: string -> string, t: Option<TypeId>, a: string, b: string) {
    if t.Some? && t.value in types && types[t.value].Struct? then fold(a) == fold(b) else a == b
  }

  /** A way into a document, one place inside the one before. */
  ghost predicate IsWay(types: Types, fold: string -> string, way: seq<Place>) {
    |way| > 0 && forall i :: 0 <= i < |way| - 1 ==> Inside(types, fold, way[i], way[i + 1])
  }

  /* ---------- One level ---------- */

  lemma ElementTypes(types: Types, t: Option<TypeId>, e: Option<TypeId>)
    ensures ElementTyped(types, t, e) <==> e == ElementType(types, t)
  {
  }

  lemma {:induction false} ExactFirst(fields: seq<Field>, key: string, i: nat)
    requires i < |fields| && fields[i].name == key && forall k :: 0 <= k < i ==> fields[k].name != key
    ensures ExactField(fields, key) == Some(fields[i])
    decreases |fields|
  {
    if i > 0 {
      assert forall k :: 0 <= k < i - 1 ==> fields[1..][k] == fields[k + 1];
      ExactFirst(fields[1..], key, i - 1);
    }
  }

  lemma {:induction false} FoldedFirst(fields: seq<Field>, folded: string, fold: string -> string, i: nat)
    requires i < |fields| && fold(fields[i].name) == folded && forall k :: 0 <= k < i ==> fold(fields[k].name) != folded
    ensures FoldedField(fields, folded, fold) == Some(fields[i])
    decreases |fields|
  {
    if i > 0 {
      assert forall k :: 0 <= k < i - 1 ==> fields[1..][k] == fields[k + 1];
      FoldedFirst(fields[1..], folded, fold, i - 1);
    }
  }

  lemma {:induction false} ExactIndex(fields: seq<Field>, key: string) returns (i: nat)
    requires exists f :: f in fields && f.name == key
    ensures i < |fields| && fields[i].name == key && forall k :: 0 <= k < i ==> fields[k].name != key
    decreases |fields|
  {
    if fields[0].name == key {
      i := 0;
    } else {
      var rest := ExactIndex(fields[1..], key);
      i := rest + 1;
      forall k | 0 <= k < i ensures fields[k].name != key {
        if k > 0 { assert fields[k] == fields[1..][k - 1]; }
      }
    }
  }

  lemma {:induction false} FoldedIndex(fields: seq<Field>, folded: string, fold: string -> string) returns (i: nat)
    requires exists f :: f in fields && fold(f.name) == folded
    ensures i < |fields| && fold(fields[i].name) == folded && forall k :: 0 <= k < i ==> fold(fields[k].name) != folded
    decreases |fields|
  {
    if fold(fields[0].name) == folded {
      i := 0;
    } else {
      var rest := FoldedIndex(fields[1..], folded, fold);
      i := rest + 1;
      forall k | 0 <= k < i ensures fold(fields[k].name) != folded {
        if k > 0 { assert fields[k] == fields[1..][k - 1]; }
      }
    }
  }

  lemma MemberTypes(types: Types, t: Option<TypeId>, key: string, fold: string -> string, e: Option<TypeId>)
    ensures MemberTyped(types, t, key, fold, e) <==> e == MemberType(types, t, key, fold)
  {
    if t.Some? && t.value in types && types[t.value].Struct? {
      FieldTypes(types[t.value].fields, key, fold, e);
    }
  }

  lemma FieldTypes(fields: seq<Field>, key: string, fold: string -> string, e: Option<TypeId>)
    ensures FieldTyped(fields, key, fold, e) <==>
            e == match ExactField(fields, key)
                 case Some(f) => f.typ
                 case None => match FoldedField(fields, fold(key), fold) case Some(f) => f.typ case None => None
  {
    if exists f :: f in fields && f.name == key {
      var i := ExactIndex(fields, key);
      ExactFirst(fields, key, i);
    } else if exists f :: f in fields && fold(f.name) == fold(key) {
      var i := FoldedIndex(fields, fold(key), fold);
      FoldedFirst(fields, fold(key), fold, i);
    }
  }

  lemma {:induction false} NamesOfKeys(members: Members, types: Types, t: Option<TypeId>, fold: string -> string, name: string)
    ensures name in Names(members, types, t, fold) <==>
            exists i :: 0 <= i < |Keys(members)| && Canonical(types, t, Keys(members)[i], fold) == name
    decreases members
  {
    if members.Member? {
      NamesOfKeys(members.rest, types, t, fold, name);
      var keys := Keys(members);
      assert keys[0] == members.key && keys[1..] == Keys(members.rest);
      if i :| 0 <= i < |Keys(members.rest)| && Canonical(types, t, Keys(members.rest)[i], fold) == name {
        assert keys[i + 1] == Keys(members.rest)[i];
      }
      if i :| 0 <= i < |keys| && Canonical(types, t, keys[i], fold) == name {
        if i > 0 { assert keys[i] == Keys(members.rest)[i - 1]; }
      }
    }
  }

  ghost predicate Distinct(members: Members, types: Types, t: Option<TypeId>, fold: string -> string) {
    forall i, j :: 0 <= i < j < |Keys(members)| ==> Canonical(types, t, Keys(members)[i], fold) != Canonical(types, t, Keys(members)[j], fold)
  }

  ghost predicate EachUnique(members: Members, types: Types, t: Option<TypeId>, fold: string -> string) {
    forall i :: 0 <= i < |Keys(members)| ==> Unique(Contents(members)[i], types, MemberType(types, t, Keys(members)[i], fold), fold)
  }

  lemma {:induction false} MembersLevel(members: Members, types: Types, t: Option<TypeId>, fold: string -> string)
    ensures UniqueMembers(members, types, t, fold) <==> Distinct(members, types, t, fold) && EachUnique(members, types, t, fold)
    decreases members
  {
    hide Unique, MemberType, Canonical;
    if members.Member? {
      MembersLevel(members.rest, types, t, fold);
      DistinctStep(members, types, t, fold);
      EachStep(members, types, t, fold);
    }
  }

  lemma DistinctStep(members: Members, types: Types, t: Option<TypeId>, fold: string -> string)
    requires members.Member?
    ensures Distinct(members, types, t, fold) <==>
            Canonical(types, t, members.key, fold) !in Names(members.rest, types, t, fold) && Distinct(members.rest, types, t, fold)
  {
    hide Canonical;
    var keys, rest, first := Keys(members), Keys(members.rest), Canonical(types, t, members.key, fold);
    assert keys[0] == members.key && keys[1..] == rest;
    NamesOfKeys(members.rest, types, t, fold, first);
    hide Names, Keys;
    assert forall i :: 0 <= i < |rest| ==> rest[i] == keys[i + 1];
    assert forall i :: 0 < i < |keys| ==> keys[i] == rest[i - 1];
    if Distinct(members, types, t, fold) {
      forall i, j | 0 <= i < j < |rest| ensures Canonical(types, t, rest[i], fold) != Canonical(types, t, rest[j], fold) {
        assert keys[i + 1] == rest[i] && keys[j + 1] == rest[j];
      }
      forall i | 0 <= i < |rest| ensures Canonical(types, t, rest[i], fold) != first {
        assert keys[i + 1] == rest[i];
      }
    }
  }

  lemma EachStep(members: Members, types: Types, t: Option<TypeId>, fold: string -> string)
    requires members.Member?
    ensures EachUnique(members, types, t, fold) <==>
            Unique(members.value, types, MemberType(types, t, members.key, fold), fold) && EachUnique(members.rest, types, t, fold)
  {
    hide Unique, MemberType;
    var keys, values := Keys(members), Contents(members);
    assert keys[0] == members.key && values[0] == members.value;
    assert forall i :: 0 <= i < |Keys(members.rest)| ==> keys[i + 1] == Keys(members.rest)[i] && values[i + 1] == Contents(members.rest)[i];
  }

  lemma {:induction false} ItemsLevel(items: Items, types: Types, t: Option<TypeId>, fold: string -> string)
    ensures UniqueItems(items, types, t, fold) <==> forall v :: v in Elements(items) ==> Unique(v, types, t, fold)
    decreases items
  {
    if items.Item? {
      ItemsLevel(items.tail, types, t, fold);
      assert Elements(items)[0] == items.head;
      assert forall v :: v in Elements(items) <==> v == items.head || v in Elements(items.tail);
      if forall v :: v in Elements(items) ==> Unique(v, types, t, fold) {
        assert items.head in Elements(items);
        assert forall v :: v in Elements(items.tail) ==> v in Elements(items);
        assert UniqueItems(items, types, t, fold);
      }
      if UniqueItems(items, types, t, fold) {
        assert Unique(items.head, types, t, fold) && UniqueItems(items.tail, types, t, fold);
      }
    }
  }

  ghost predicate UniqueAt(types: Types, fold: string -> string, place: Place) {
    Unique(place.value, types, place.typ, fold)
  }

  /** A value has unique names when its own do not repeat and every value directly inside has. */
  lemma Level(types: Types, fold: string -> string, place: Place)
    ensures UniqueAt(types, fold, place) <==>
            !Repeats(types, fold, place) && forall inner :: Inside(types, fold, place, inner) ==> UniqueAt(types, fold, inner)
  {
    match place.value {
      case Arr(items) => ArrayLevel(types, fold, place);
      case Obj(members) => ObjectLevel(types, fold, place);
      case _ =>
    }
  }

  lemma ArrayLevel(types: Types, fold: string -> string, place: Place)
    requires place.value.Arr?
    ensures UniqueAt(types, fold, place) <==> forall inner :: Inside(types, fold, place, inner) ==> UniqueAt(types, fold, inner)
  {
    var items, e := place.value.items, ElementType(types, place.typ);
    assert UniqueAt(types, fold, place) <==> UniqueItems(items, types, e, fold);
    hide Unique, UniqueItems;
    ItemsLevel(items, types, e, fold);
    forall inner ensures Inside(types, fold, place, inner) <==> inner.value in Elements(items) && inner.typ == e {
      ElementTypes(types, place.typ, inner.typ);
    }
    hide Inside;
    if forall inner :: Inside(types, fold, place, inner) ==> UniqueAt(types, fold, inner) {
      forall v | v in Elements(items) ensures Unique(v, types, e, fold) {
        assert Inside(types, fold, place, Place(v, e));
      }
    }
  }

  lemma ObjectLevel(types: Types, fold: string -> string, place: Place)
    requires place.value.Obj?
    ensures UniqueAt(types, fold, place) <==>
            !Repeats(types, fold, place) && forall inner :: Inside(types, fold, place, inner) ==> UniqueAt(types, fold, inner)
  {
    var members, t := place.value.members, place.typ;
    assert UniqueAt(types, fold, place) <==> UniqueMembers(members, types, t, fold);
    hide Unique, UniqueMembers;
    MembersLevel(members, types, t, fold);
    assert Repeats(types, fold, place) <==> !Distinct(members, types, t, fold);
    MembersInside(types, fold, place);
    hide *;
  }

  lemma MembersInside(types: Types, fold: string -> string, place: Place)
    requires place.value.Obj?
    ensures EachUnique(place.value.members, types, place.typ, fold) <==>
            forall inner :: Inside(types, fold, place, inner) ==> UniqueAt(types, fold, inner)
  {
    hide Unique;
    var members, t := place.value.members, place.typ;
    forall key, e ensures MemberTyped(types, t, key, fold, e) <==> e == MemberType(types, t, key, fold) {
      MemberTypes(types, t, key, fold, e);
    }
    hide MemberTyped, MemberType, Keys, Contents;
    if forall inner :: Inside(types, fold, place, inner) ==> UniqueAt(types, fold, inner) {
      forall i | 0 <= i < |Keys(members)|
        ensures Unique(Contents(members)[i], types, MemberType(types, t, Keys(members)[i], fold), fold)
      {
        assert Inside(types, fold, place, Place(Contents(members)[i], MemberType(types, t, Keys(members)[i], fold)));
      }
    }
  }

  /* ---------- Whole documents ---------- */

  lemma {:induction false} WaysKeepUnique(types: Types, fold: string -> string, way: seq<Place>)
    requires IsWay(types, fold, way) && UniqueAt(types, fold, way[0])
    ensures !Repeats(types, fold, way[|way| - 1])
    decreases |way|
  {
    hide UniqueAt, Inside, Repeats;
    Level(types, fold, way[0]);
    if |way| > 1 {
      assert Inside(types, fold, way[0], way[1]);
      var rest := way[1..];
      assert forall i :: 0 <= i < |rest| ==> rest[i] == way[i + 1];
      WaysKeepUnique(types, fold, rest);
    }
  }

  lemma {:induction false} InsideIsSmaller(types: Types, fold: string -> string, outer: Place, inner: Place)
    requires Inside(types, fold, outer, inner)
    ensures Values(inner.value) < Values(outer.value)
  {
    match outer.value {
      case Arr(items) => ElementSmaller(items, inner.value);
      case Obj(members) =>
        var i :| 0 <= i < |Keys(members)| && Contents(members)[i] == inner.value;
        ContentSmaller(members, i);
    }
  }

  lemma {:induction false} ElementSmaller(items: Items, v: Json)
    requires v in Elements(items)
    ensures Values(v) <= ItemValues(items)
    decreases items
  {
    if v != items.head { ElementSmaller(items.tail, v); }
  }

  lemma {:induction false} ContentSmaller(members: Members, i: nat)
    requires i < |Contents(members)|
    ensures Values(Contents(members)[i]) <= MemberValues(members)
    decreases members
  {
    if i > 0 { ContentSmaller(members.rest, i - 1); }
  }

  /** A value that is not unique has a way to a place that repeats a name. */
  lemma {:induction false} WayToRepeat(types: Types, fold: string -> string, place: Place) returns (way: seq<Place>)
    requires !UniqueAt(types, fold, place)
    ensures IsWay(types, fold, way) && way[0] == place && Repeats(types, fold, way[|way| - 1])
    decreases Values(place.value)
  {
    hide UniqueAt, Inside, Repeats;
    Level(types, fold, place);
    if Repeats(types, fold, place) {
      way := [place];
    } else {
      var inner :| Inside(types, fold, place, inner) && !UniqueAt(types, fold, inner);
      InsideIsSmaller(types, fold, place, inner);
      var rest := WayToRepeat(types, fold, inner);
      way := [place] + rest;
      assert forall i :: 0 < i < |way| ==> way[i] == rest[i - 1];
    }
  }

  /** Names are unique exactly when no way into the value ends where a name repeats. */
  lemma UniqueEverywhere(types: Types, fold: string -> string, place: Place)
    ensures Unique(place.value, types, place.typ, fold) <==>
      forall way :: IsWay(types, fold, way) && way[0] == place ==> !Repeats(types, fold, way[|way| - 1])
  {
    hide Unique, Inside, Repeats;
    if UniqueAt(types, fold, place) {
      forall way | IsWay(types, fold, way) && way[0] == place ensures !Repeats(types, fold, way[|way| - 1]) {
        WaysKeepUnique(types, fold, way);
      }
    } else {
      var way := WayToRepeat(types, fold, place);
    }
  }

  /** A document is accepted exactly when, within the limits, no way into it ends where a name repeats. */
  lemma AcceptedEverywhere(c: Context, j: Json)
    ensures Accepts(c, Tokens(j)) <==>
      && WithinLimits(j, c.limits)
      && forall way :: IsWay(c.types, c.fold, way) && way[0] == Place(j, c.root) ==> !Repeats(c.types, c.fold, way[|way| - 1])
  {
    ReadValue(c, START, j);
    UniqueEverywhere(c.types, c.fold, Place(j, c.root));
  }

  /** A repeated folded name inside an element of an array of structs is refused. */
  lemma StructElementsRefused(c: Context, items: Items, e: TypeId, members: Members, i: nat, j: nat)
    requires c.root.Some? && c.root.value in c.types && c.types[c.root.value] == Sequence(Some(e))
    requires e in c.types && c.types[e].Struct? && Obj(members) in Elements(items)
    requires i < j < |Keys(members)| && c.fold(Keys(members)[i]) == c.fold(Keys(members)[j])
    ensures !Accepts(c, Tokens(Arr(items)))
  {
    var way := [Place(Arr(items), c.root), Place(Obj(members), Some(e))];
    assert Inside(c.types, c.fold, way[0], way[1]);
    assert Clash(c.types, c.fold, Some(e), Keys(members)[i], Keys(members)[j]);
    assert Repeats(c.types, c.fold, way[1]);
    AcceptedEverywhere(c, Arr(items));
  }
}
