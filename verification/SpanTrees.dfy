/**
 Ancestry of timeline spans (profile/timeline.go): a colouring walk along parent links finds a
 cycle exactly when there is one.
 */
module SpanTrees {
  import opened FiniteSets

  type Id = nat

  /** Each span's parent; zero and unknown identities end an ancestry. */
  type Parents = map<Id, Id>

  ghost predicate IsChain(parents: Parents, p: seq<Id>) {
    forall i :: 0 <= i < |p| - 1 ==> p[i] in parents && parents[p[i]] == p[i + 1]
  }

  ghost predicate HasCycle(parents: Parents) {
    exists p: seq<Id> :: |p| >= 2 && IsChain(parents, p) && p[0] == p[|p| - 1]
  }

  /* ---------- An order that shows there is no cycle ---------- */

  /** Every span of the order comes after its parent, if that is a span. */
  ghost predicate Ordered(parents: Parents, order: seq<Id>) {
    && (forall i :: 0 <= i < |order| ==> order[i] in parents)
    && (forall i :: 0 <= i < |order| ==> parents[order[i]] in parents ==> parents[order[i]] in order[..i])
  }

  /** Where an identity first occurs. */
  function Position(order: seq<Id>, x: Id): (r: nat)
    requires x in order
    ensures r < |order| && order[r] == x
    ensures forall j :: 0 <= j < |order| && order[j] == x ==> r <= j
  {
    if order[0] == x then 0 else Position(order[1..], x) + 1
  }

  lemma ParentEarlier(parents: Parents, order: seq<Id>, x: Id)
    requires Ordered(parents, order) && x in order && parents[x] in parents
    ensures parents[x] in order && Position(order, parents[x]) < Position(order, x)
  {
    var i := Position(order, x);
    assert parents[x] in order[..i];
    var j :| 0 <= j < i && order[j] == parents[x];
  }

  lemma {:induction false} ChainDescends(parents: Parents, order: seq<Id>, p: seq<Id>, i: nat)
    requires Ordered(parents, order) && (forall x :: x in parents ==> x in order)
    requires IsChain(parents, p) && i < |p| && |p| > 0 && p[|p| - 1] in parents
    ensures p[i] in parents && p[0] in parents && Position(order, p[i]) + i <= Position(order, p[0])
    decreases i
  {
    if i > 0 {
      ChainDescends(parents, order, p, i - 1);
      assert p[i - 1] in parents && parents[p[i - 1]] == p[i];
      if i < |p| - 1 { assert p[i] in parents; }
      ParentEarlier(parents, order, p[i - 1]);
    } else if |p| > 1 {
      assert p[0] in parents;
    }
  }

  lemma OrderedIsAcyclic(parents: Parents, order: seq<Id>)
    requires Ordered(parents, order) && forall x :: x in parents ==> x in order
    ensures !HasCycle(parents)
  {
    forall p: seq<Id> | |p| >= 2 && IsChain(parents, p) ensures p[0] != p[|p| - 1] {
      if p[0] == p[|p| - 1] {
        assert p[0] in parents;
        ChainDescends(parents, order, p, |p| - 1);
      }
    }
  }

  /* ---------- The walk ---------- */

  /** Colours: unseen (absent), on the current path (1), finished (2). */
  type Colors = map<Id, nat>

  ghost predicate ColorsOk(colors: Colors, path: seq<Id>, order: seq<Id>) {
    && (forall x :: x in colors ==> colors[x] == 1 || colors[x] == 2)
    && (forall x :: x in colors && colors[x] == 1 <==> x in path)
    && (forall x :: x in colors && colors[x] == 2 <==> x in order)
  }

  function Color(colors: Colors, x: Id): nat {
    if x in colors then colors[x] else 0
  }

  /** The current path follows parent links up to `id`. */
  ghost predicate Climbing(parents: Parents, path: seq<Id>, id: Id) {
    IsChain(parents, path + [id]) && Distinct(path)
  }

  function Reverse(p: seq<Id>): (r: seq<Id>)
    ensures |r| == |p| && forall i :: 0 <= i < |p| ==> r[i] == p[|p| - 1 - i]
  {
    if |p| == 0 then [] else [p[|p| - 1]] + Reverse(p[..|p| - 1])
  }

  /** A path that meets itself closes a cycle. */
  lemma PathCloses(parents: Parents, path: seq<Id>, id: Id)
    requires Climbing(parents, path, id) && id in path
    ensures HasCycle(parents)
  {
    var j :| 0 <= j < |path| && path[j] == id;
    var all := path + [id];
    var p := all[j..];
    forall i | 0 <= i < |p| - 1 ensures p[i] in parents && parents[p[i]] == p[i + 1] {
      assert all[j + i] in parents && parents[all[j + i]] == all[j + i + 1];
    }
    assert p[0] == id && p[|p| - 1] == id && |p| >= 2;
  }

  /** A path that ends at something finished, or at no span, extends the order from its far end. */
  lemma PathFinishes(parents: Parents, path: seq<Id>, id: Id, order: seq<Id>)
    requires Ordered(parents, order) && Climbing(parents, path, id)
    requires id in parents ==> id in order
    ensures Ordered(parents, order + Reverse(path))
  {
    var all := order + Reverse(path);
    forall i | 0 <= i < |all| ensures all[i] in parents && (parents[all[i]] in parents ==> parents[all[i]] in all[..i]) {
      if i < |order| {
        assert all[..i] == order[..i];
      } else {
        var k := |path| - 1 - (i - |order|);
        assert all[i] == path[k] && (path + [id])[k] == path[k] && parents[path[k]] == (path + [id])[k + 1];
        if k == |path| - 1 {
          assert i == |order| && all[..i] == order;
        } else {
          assert all[i - 1] == path[k + 1] && all[..i][i - 1] == all[i - 1];
        }
      }
    }
  }

  /** Follows parent links from `start` through unseen spans. */
  method Climb(parents: Parents, colors: Colors, start: Id, ghost order: seq<Id>) returns (colors': Colors, path: seq<Id>, id: Id)
    requires ColorsOk(colors, [], order) && Ordered(parents, order)
    ensures ColorsOk(colors', path, order) && Climbing(parents, path, id)
    ensures id != 0 && id in parents ==> Color(colors', id) != 0
    ensures start != 0 && start in parents ==> start in path || start in order
  {
    colors', path, id := colors, [], start;
    ghost var rest := parents.Keys - colors.Keys;
    while id != 0 && Color(colors', id) == 0 && id in parents
      invariant ColorsOk(colors', path, order) && Climbing(parents, path, id)
      invariant path == [] ==> id == start && colors' == colors
      invariant path != [] ==> path[0] == start
      invariant rest == parents.Keys - colors'.Keys
      decreases rest
    {
      ClimbStep(parents, path, id);
      colors' := colors'[id := 1];
      rest := rest - {id};
      path := path + [id];
      id := parents[id];
    }
  }

  lemma ClimbStep(parents: Parents, path: seq<Id>, id: Id)
    requires Climbing(parents, path, id) && id in parents && id !in path
    ensures Climbing(parents, path + [id], parents[id])
  {
    var all := path + [id] + [parents[id]];
    forall i | 0 <= i < |all| - 1 ensures all[i] in parents && parents[all[i]] == all[i + 1] {
      if i < |path| { assert (path + [id])[i] == all[i] && (path + [id])[i + 1] == all[i + 1]; }
    }
  }

  method Paint(colors: Colors, path: seq<Id>, ghost order: seq<Id>) returns (colors': Colors)
    requires ColorsOk(colors, path, order)
    ensures ColorsOk(colors', [], order + Reverse(path))
  {
    colors' := colors;
    for i := 0 to |path|
      invariant colors'.Keys == colors.Keys
      invariant forall x :: x in colors ==> colors'[x] == if x in path[..i] then 2 else colors[x]
    {
      colors' := colors'[path[i] := 2];
      assert path[..i + 1] == path[..i] + [path[i]];
    }
    assert path[..|path|] == path;
    ReverseMembers(path);
  }

  lemma ReverseMembers(p: seq<Id>)
    ensures forall x :: x in Reverse(p) <==> x in p
  {
    forall x | x in p ensures x in Reverse(p) {
      var i :| 0 <= i < |p| && p[i] == x;
      assert Reverse(p)[|p| - 1 - i] == x;
    }
  }

  /** Linear cycle detection over all spans. */
  method Acyclic(parents: Parents, ids: seq<Id>) returns (ok: bool)
    requires 0 !in parents && forall x :: x in parents <==> x in ids
    ensures ok <==> !HasCycle(parents)
  {
    hide HasCycle, Ordered, Climbing, ColorsOk, Color, Reverse;
    var colors: Colors := map[];
    ghost var order: seq<Id> := [];
    NothingOrdered(parents, colors);
    for i := 0 to |ids|
      invariant ColorsOk(colors, [], order) && Ordered(parents, order)
      invariant forall j :: 0 <= j < i ==> ids[j] in order
    {
      var path, id;
      colors, path, id := Climb(parents, colors, ids[i], order);
      ColorMeaning(colors, path, order, id);
      if id != 0 && Color(colors, id) == 1 {
        PathCloses(parents, path, id);
        return false;
      }
      PathFinishes(parents, path, id, order);
      colors := Paint(colors, path, order);
      ReverseMembers(path);
      order := order + Reverse(path);
    }
    OrderedIsAcyclic(parents, order);
    ok := true;
  }

  lemma NothingOrdered(parents: Parents, colors: Colors)
    requires colors == map[]
    ensures Ordered(parents, []) && ColorsOk(colors, [], [])
  {
  }

  lemma ColorMeaning(colors: Colors, path: seq<Id>, order: seq<Id>, x: Id)
    requires ColorsOk(colors, path, order)
    ensures Color(colors, x) == 1 ==> x in path
    ensures Color(colors, x) != 0 && Color(colors, x) != 1 ==> x in order
  {
  }
}
