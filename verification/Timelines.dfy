/**
 Timeline analysis (profile/timeline.go): nested spans, and exclusive time as inclusive time
 without the union of the immediate children.
 */
module Timelines {
  import opened Options
  import opened Words
  import opened FiniteSets
  import opened Sorting
  import opened SpanTrees

  datatype Span = Span(id: UInt64, parent: UInt64, start: UInt64, end: UInt64)

  /* ---------- Time covered by a set of spans ---------- */

  /** The instants of [a, b). */
  function Interval(a: int, b: int): (r: set<int>)
    ensures forall t :: t in r <==> a <= t < b
    ensures |r| == if a <= b then b - a else 0
    decreases b - a
  {
    if a >= b then {} else Interval(a, b - 1) + {b - 1}
  }

  function Union(spans: seq<Span>): (r: set<int>)
    ensures forall t :: t in r <==> exists s :: s in spans && s.start <= t < s.end
  {
    if |spans| == 0 then {}
    else
      var n := |spans| - 1;
      assert spans == spans[..n] + [spans[n]];
      Union(spans[..n]) + Interval(spans[n].start, spans[n].end)
  }

  ghost predicate ByStart(spans: seq<Span>) {
    forall i, j :: 0 <= i < j < |spans| ==> spans[i].start <= spans[j].start
  }

  predicate StartLess(a: Span, b: Span) {
    a.start < b.start
  }

  lemma SameUnion(a: seq<Span>, b: seq<Span>)
    requires forall s :: s in a <==> s in b
    ensures Union(a) == Union(b)
  {
  }

  /** The union so far: what has been counted, and one open interval after it. */
  ghost predicate Merging(done: seq<Span>, counted: set<int>, start: int, end: int) {
    start <= end && Union(done) == counted + Interval(start, end) && forall t :: t in counted ==> t < start
  }

  lemma UnionNext(spans: seq<Span>, n: int)
    requires 0 <= n < |spans|
    ensures Union(spans[..n + 1]) == Union(spans[..n]) + Interval(spans[n].start, spans[n].end)
  {
    assert spans[..n + 1][..n] == spans[..n];
  }

  lemma MergeNew(spans: seq<Span>, n: int, counted: set<int>, start: int, end: int)
    requires 0 <= n < |spans| && Merging(spans[..n], counted, start, end) && end < spans[n].start <= spans[n].end
    ensures Merging(spans[..n + 1], counted + Interval(start, end), spans[n].start, spans[n].end)
    ensures |counted + Interval(start, end)| == |counted| + (end - start)
  {
    hide Union, Interval;
    UnionNext(spans, n);
    DisjointSizes(counted, Interval(start, end));
  }

  lemma MergeInto(spans: seq<Span>, n: int, counted: set<int>, start: int, end: int)
    requires 0 <= n < |spans| && Merging(spans[..n], counted, start, end) && start <= spans[n].start <= end
    ensures Merging(spans[..n + 1], counted, start, if spans[n].end > end then spans[n].end else end)
  {
    hide Union, Interval;
    UnionNext(spans, n);
    IntervalJoin(start, end, spans[n].start, spans[n].end);
    var (x, y) := (Interval(start, end), Interval(spans[n].start, spans[n].end));
    assert counted + x + y == counted + (x + y);
  }

  lemma IntervalJoin(a: int, b: int, c: int, d: int)
    requires a <= c <= b
    ensures Interval(a, b) + Interval(c, d) == Interval(a, if d > b then d else b)
  {
    hide Interval;
  }

  lemma MergeStart(spans: seq<Span>)
    requires |spans| > 0 && spans[0].start <= spans[0].end
    ensures Merging(spans[..1], {}, spans[0].start, spans[0].end)
  {
    UnionNext(spans, 0);
    assert spans[..0] == [];
  }

  lemma MergeEnd(spans: seq<Span>, counted: set<int>, start: int, end: int)
    requires Merging(spans, counted, start, end)
    ensures |Union(spans)| == |counted| + (end - start)
  {
    DisjointSizes(counted, Interval(start, end));
  }

  /** Merging spans in order of their start measures their union. */
  method Covered(spans: seq<Span>) returns (covered: int)
    requires ByStart(spans) && forall s :: s in spans ==> s.start <= s.end
    ensures covered == |Union(spans)|
  {
    hide Merging, Union, Interval;
    covered := 0;
    if |spans| == 0 {
      assert Union(spans) == {};
      return;
    }
    var start, end := spans[0].start, spans[0].end;
    ghost var counted: set<int> := {};
    MergeStart(spans);
    for n := 1 to |spans|
      invariant covered == |counted| && Merging(spans[..n], counted, start, end)
      invariant start <= spans[n - 1].start
    {
      var child := spans[n];
      assert child in spans && spans[n - 1].start <= child.start;
      if child.start > end {
        MergeNew(spans, n, counted, start, end);
        covered := covered + (end - start);
        counted := counted + Interval(start, end);
        start, end := child.start, child.end;
      } else {
        MergeInto(spans, n, counted, start, end);
        if child.end > end { end := child.end; }
      }
    }
    assert spans[..|spans|] == spans;
    MergeEnd(spans, counted, start, end);
    covered := covered + (end - start);
  }

  lemma DisjointSizes(a: set<int>, b: set<int>)
    requires a !! b
    ensures |a + b| == |a| + |b|
  {
  }

  /* ---------- What is analysed ---------- */

  ghost predicate Identified(spans: seq<Span>) {
    && (forall i :: 0 <= i < |spans| ==> spans[i].id != 0 && (spans[i].end != 0 ==> spans[i].start <= spans[i].end))
    && (forall i, j :: 0 <= i < j < |spans| ==> spans[i].id != spans[j].id)
  }

  /** A line of ancestry: spans of the capture, each the child of the next. */
  ghost predicate Ancestry(spans: seq<Span>, line: seq<Span>) {
    && (forall i :: 0 <= i < |line| ==> line[i] in spans)
    && (forall i :: 0 <= i < |line| - 1 ==> line[i].parent == line[i + 1].id)
  }

  /** Some span is its own ancestor. */
  ghost predicate Cyclic(spans: seq<Span>) {
    exists line: seq<Span> :: |line| >= 2 && Ancestry(spans, line) && line[0] == line[|line| - 1]
  }

  function Children(spans: seq<Span>, id: UInt64): (r: seq<Span>)
    ensures forall s :: s in r <==> s in spans && s.parent == id
  {
    if |spans| == 0 then []
    else
      var n := |spans| - 1;
      assert spans == spans[..n] + [spans[n]];
      if spans[n].parent == id then Children(spans[..n], id) + [spans[n]] else Children(spans[..n], id)
  }

  /** A child lies within its parent; an unfinished parent has no end to exceed. */
  predicate Inside(child: Span, parent: Span) {
    parent.start <= child.start && (parent.end != 0 ==> child.start <= parent.end && child.end <= parent.end)
  }

  ghost predicate Nested(spans: seq<Span>) {
    forall a, b :: a in spans && b in spans && a.parent == b.id ==> Inside(a, b)
  }

  ghost predicate ParentKnown(spans: seq<Span>, s: Span) {
    s.parent == 0 || exists p :: p in spans && p.id == s.parent
  }

  /** Nothing was dropped, every span ended and every parent is present. */
  ghost predicate Whole(spans: seq<Span>, dropped: nat) {
    dropped == 0 && forall s :: s in spans ==> s.end != 0 && ParentKnown(spans, s)
  }

  datatype Row = Row(span: Span, inclusive: Option<UInt64>, exclusive: Option<UInt64>)

  /** Exclusive time is what the immediate children leave uncovered. */
  ghost predicate RowOk(spans: seq<Span>, whole: bool, r: Row) {
    && r.inclusive == (if r.span.end != 0 then Some(r.span.end - r.span.start) else None)
    && (r.exclusive.Some? <==> whole && r.span.end != 0)
    && (r.exclusive.Some? ==> r.exclusive.value == r.span.end - r.span.start - |Union(Children(spans, r.span.id))|)
    && (r.exclusive.Some? ==> r.exclusive.value == |Interval(r.span.start, r.span.end) - Union(Children(spans, r.span.id))|)
  }

  /** Children of a span are covered by it, so the subtraction cannot underflow. */
  lemma ChildrenFit(spans: seq<Span>, s: Span)
    requires Nested(spans) && s in spans && s.end != 0 && s.start <= s.end
    ensures Union(Children(spans, s.id)) <= Interval(s.start, s.end)
    ensures |Union(Children(spans, s.id))| <= s.end - s.start
    ensures |Interval(s.start, s.end) - Union(Children(spans, s.id))| == s.end - s.start - |Union(Children(spans, s.id))|
  {
    var u, all := Union(Children(spans, s.id)), Interval(s.start, s.end);
    forall t | t in u ensures t in all {
      var c :| c in Children(spans, s.id) && c.start <= t < c.end;
      assert Inside(c, s);
    }
    SubsetSize(u, all);
    DisjointSizes(u, all - u);
    assert u + (all - u) == all;
  }

  /* ---------- The analysis ---------- */

  ghost predicate IndexOk(spans: seq<Span>, index: map<UInt64, nat>) {
    && (forall i :: 0 <= i < |spans| ==> spans[i].id in index && index[spans[i].id] == i)
    && (forall id :: id in index ==> index[id] < |spans| && spans[index[id]].id == id)
  }

  ghost predicate ChildrenOk(spans: seq<Span>, children: map<UInt64, seq<Span>>) {
    forall id :: (if id in children then children[id] else []) == Children(spans, id)
  }

  lemma ChildrenNext(spans: seq<Span>, n: int, id: UInt64)
    requires 0 <= n < |spans|
    ensures Children(spans[..n + 1], id) == Children(spans[..n], id) + if spans[n].parent == id then [spans[n]] else []
  {
    assert spans[..n + 1][..n] == spans[..n];
  }

  lemma NoChildren(children: map<UInt64, seq<Span>>)
    requires children == map[]
    ensures ChildrenOk([], children)
  {
  }

  lemma ChildAdded(spans: seq<Span>, i: int, children: map<UInt64, seq<Span>>)
    requires 0 <= i < |spans| && ChildrenOk(spans[..i], children)
    ensures var p := spans[i].parent;
            ChildrenOk(spans[..i + 1], children[p := (if p in children then children[p] else []) + [spans[i]]])
  {
    hide Children;
    var p := spans[i].parent;
    var children' := children[p := (if p in children then children[p] else []) + [spans[i]]];
    forall id ensures (if id in children' then children'[id] else []) == Children(spans[..i + 1], id) {
      ChildrenNext(spans, i, id);
    }
  }

  /** Indexes spans by identity and by parent, refusing bad identities and clocks. */
  method Register(spans: seq<Span>) returns (ok: bool, index: map<UInt64, nat>, children: map<UInt64, seq<Span>>)
    ensures ok <==> Identified(spans)
    ensures ok ==> IndexOk(spans, index) && ChildrenOk(spans, children)
  {
    hide ChildrenOk;
    index, children := map[], map[];
    assert spans[..0] == [];
    NoChildren(children);
    for i := 0 to |spans|
      invariant Identified(spans[..i]) && IndexOk(spans[..i], index) && ChildrenOk(spans[..i], children)
    {
      var s := spans[i];
      assert spans[..i + 1] == spans[..i] + [s];
      if s.id == 0 || s.id in index || (s.end != 0 && s.end < s.start) {
        if s.id in index { assert spans[..i][index[s.id]].id == s.id; }
        return false, index, children;
      }
      index := index[s.id := i];
      ChildAdded(spans, i, children);
      var siblings := if s.parent in children then children[s.parent] else [];
      children := children[s.parent := siblings + [s]];
    }
    assert spans[..|spans|] == spans;
    ok := true;
  }

  /** Checks every span against its parent, and whether the capture is whole. */
  method CheckNesting(spans: seq<Span>, index: map<UInt64, nat>, dropped: nat) returns (ok: bool, whole: bool)
    requires Identified(spans) && IndexOk(spans, index)
    ensures ok <==> Nested(spans)
    ensures ok ==> (whole <==> Whole(spans, dropped))
  {
    whole := dropped == 0;
    for i := 0 to |spans|
      invariant forall a, b :: a in spans[..i] && b in spans && a.parent == b.id ==> Inside(a, b)
      invariant whole <==> dropped == 0 && forall s :: s in spans[..i] ==> s.end != 0 && ParentKnown(spans, s)
    {
      var s := spans[i];
      assert spans[..i + 1] == spans[..i] + [s];
      ByIdentity(spans, index, s.parent);
      if s.parent != 0 {
        if s.parent !in index {
          whole := false;
        } else {
          var parent := spans[index[s.parent]];
          if s.start < parent.start || (parent.end != 0 && (s.start > parent.end || s.end > parent.end)) {
            assert s in spans && parent in spans;
            return false, whole;
          }
        }
      }
      if s.end == 0 { whole := false; }
    }
    assert spans[..|spans|] == spans;
    ok := true;
  }

  lemma ByIdentity(spans: seq<Span>, index: map<UInt64, nat>, id: UInt64)
    requires Identified(spans) && IndexOk(spans, index)
    ensures id == 0 ==> id !in index
    ensures forall b :: b in spans && b.id == id ==> id in index && b == spans[index[id]]
    ensures id in index ==> spans[index[id]] in spans && spans[index[id]].id == id
  {
  }

  /** The measure of the union of spans in any order. */
  method Measure(spans: seq<Span>) returns (covered: int)
    requires forall s :: s in spans ==> s.start <= s.end
    ensures covered == |Union(spans)|
  {
    hide Union, Sort;
    ByStartSorted(spans);
    covered := Covered(Sort(StartLess, spans));
    SameUnion(Sort(StartLess, spans), spans);
  }

  lemma ChildrenEnd(spans: seq<Span>, id: UInt64)
    requires Identified(spans) && forall x :: x in spans ==> x.end != 0
    ensures forall c :: c in Children(spans, id) ==> c.start <= c.end
  {
    hide Children;
  }

  lemma SpanEnds(spans: seq<Span>, s: Span)
    requires Identified(spans) && s in spans && s.end != 0
    ensures s.start <= s.end
  {
  }

  method MakeRow(spans: seq<Span>, s: Span, children: map<UInt64, seq<Span>>, whole: bool) returns (r: Row)
    requires Identified(spans) && Nested(spans) && s in spans && ChildrenOk(spans, children)
    requires whole ==> forall x :: x in spans ==> x.end != 0
    ensures r.span == s && RowOk(spans, whole, r)
  {
    hide Children, Union, Nested, Interval, Identified;
    if s.end == 0 { return Row(s, None, None); }
    SpanEnds(spans, s);
    var inclusive := s.end - s.start;
    if !whole { return Row(s, Some(inclusive), None); }
    var mine := if s.id in children then children[s.id] else [];
    assert mine == Children(spans, s.id);
    ChildrenEnd(spans, s.id);
    var covered := Measure(mine);
    ChildrenFit(spans, s);
    r := Row(s, Some(inclusive), Some(inclusive - covered));
  }

  lemma ByStartSorted(spans: seq<Span>)
    ensures ByStart(Sort(StartLess, spans))
    ensures forall s :: s in Sort(StartLess, spans) <==> s in spans
  {
    SortMembers(StartLess, spans);
    SortSorted(StartLess, spans);
    hide Sort;
    assert forall i, j :: 0 <= i < j < |spans| ==> !StartLess(Sort(StartLess, spans)[j], Sort(StartLess, spans)[i]);
  }

  /** The parent links as the walk follows them, through the index. */
  ghost predicate LinksOk(spans: seq<Span>, parents: Parents) {
    && (forall i :: 0 <= i < |spans| ==> spans[i].id in parents && parents[spans[i].id] == spans[i].parent)
    && (forall id :: id in parents ==> exists i :: 0 <= i < |spans| && spans[i].id == id)
  }

  lemma IndexedLinks(spans: seq<Span>, index: map<UInt64, nat>, parents: Parents, ids: seq<Id>)
    requires Identified(spans) && IndexOk(spans, index)
    requires parents.Keys == index.Keys && forall id :: id in index ==> parents[id] == spans[index[id]].parent
    requires |ids| == |spans| && forall i :: 0 <= i < |spans| ==> ids[i] == spans[i].id
    ensures LinksOk(spans, parents) && 0 !in parents && forall x :: x in parents <==> x in ids
  {
    forall id | id in parents ensures id in ids { assert ids[index[id]] == id; }
    forall x | x in ids ensures x in parents {
      var i :| 0 <= i < |ids| && ids[i] == x;
      assert spans[i].id in index;
    }
  }

  /** A line of ancestry is a chain of parent links. */
  lemma CycleOfSpans(spans: seq<Span>, parents: Parents)
    requires LinksOk(spans, parents) && Cyclic(spans)
    ensures HasCycle(parents)
  {
    var line: seq<Span> :| |line| >= 2 && Ancestry(spans, line) && line[0] == line[|line| - 1];
    var p: seq<Id> := seq(|line|, i requires 0 <= i < |line| => line[i].id);
    forall i | 0 <= i < |p| - 1 ensures p[i] in parents && parents[p[i]] == p[i + 1] {
      assert line[i] in spans;
    }
    assert IsChain(parents, p) && p[0] == p[|p| - 1];
  }

  /** And a closed chain of links is a line of the spans that have those identities. */
  lemma CycleOfLinks(spans: seq<Span>, parents: Parents)
    requires Identified(spans) && LinksOk(spans, parents) && HasCycle(parents)
    ensures Cyclic(spans)
  {
    var p: seq<Id> :| |p| >= 2 && IsChain(parents, p) && p[0] == p[|p| - 1];
    assert forall i :: 0 <= i < |p| ==> p[i] in parents;
    var line := seq(|p|, i requires 0 <= i < |p| => SpanOf(spans, p[i]));
    forall i | 0 <= i < |line|
      ensures line[i] in spans && line[i].id == p[i] && line[i].parent == parents[p[i]]
    {
      SpanOfFound(spans, p[i]);
    }
    forall i | 0 <= i < |line| - 1 ensures line[i].parent == line[i + 1].id {
      assert parents[p[i]] == p[i + 1];
    }
    assert Ancestry(spans, line);
  }

  ghost function SpanOf(spans: seq<Span>, id: Id): Span {
    if exists i :: 0 <= i < |spans| && spans[i].id == id then
      var i :| 0 <= i < |spans| && spans[i].id == id; spans[i]
    else Span(0, 0, 0, 0)
  }

  lemma SpanOfFound(spans: seq<Span>, id: Id)
    requires exists i :: 0 <= i < |spans| && spans[i].id == id
    ensures SpanOf(spans, id) in spans && SpanOf(spans, id).id == id
  {
  }

  predicate RowLess(a: Row, b: Row) {
    if a.span.start == b.span.start then a.span.id < b.span.id else a.span.start < b.span.start
  }

  /** By start, spans of one start by identity. */
  ghost predicate InOrder(rows: seq<Row>) {
    forall i, j :: 0 <= i < j < |rows| ==>
      && rows[i].span.start <= rows[j].span.start
      && (rows[i].span.start == rows[j].span.start ==> rows[i].span.id <= rows[j].span.id)
  }

  lemma SortedInOrder(rows: seq<Row>)
    requires Sorted(RowLess, rows)
    ensures InOrder(rows)
  {
    assert forall i, j :: 0 <= i < j < |rows| ==> !RowLess(rows[j], rows[i]);
  }

  datatype Report = Report(whole: bool, rows: seq<Row>)

  /** One row per span, in order of start and identity. */
  ghost predicate ReportOk(spans: seq<Span>, dropped: nat, r: Report) {
    && (r.whole <==> Whole(spans, dropped))
    && |r.rows| == |spans| && InOrder(r.rows)
    && (forall x :: x in r.rows ==> x.span in spans && RowOk(spans, r.whole, x))
    && (forall s :: s in spans ==> exists x :: x in r.rows && x.span == s)
  }

  method AnalyzeTimeline(spans: seq<Span>, dropped: nat) returns (r: Option<Report>)
    ensures r.Some? <==> Identified(spans) && !Cyclic(spans) && Nested(spans)
    ensures r.Some? ==> ReportOk(spans, dropped, r.value)
  {
    hide HasCycle, Cyclic, Nested, Identified, ChildrenOk, RowOk, IndexOk, InOrder, Sort, ParentKnown, LinksOk;
    var registered, index, children := Register(spans);
    if !registered { return None; }
    var acyclic := Unlooped(spans, index);
    if !acyclic { return None; }
    var nested, whole := CheckNesting(spans, index, dropped);
    if !nested { return None; }
    var rows := MakeRows(spans, children, whole);
    SortedRows(spans, rows);
    r := Some(Report(whole, Sort(RowLess, rows)));
  }

  /** Follows parent links from every span. */
  method Unlooped(spans: seq<Span>, index: map<UInt64, nat>) returns (ok: bool)
    requires Identified(spans) && IndexOk(spans, index)
    ensures ok <==> !Cyclic(spans)
  {
    hide HasCycle, Cyclic, LinksOk, Identified;
    IndexInside(spans, index);
    var parents := map id | id in index :: spans[index[id]].parent;
    var ids := seq(|spans|, i requires 0 <= i < |spans| => spans[i].id);
    IndexedLinks(spans, index, parents, ids);
    ok := Acyclic(parents, ids);
    if ok {
      if Cyclic(spans) { CycleOfSpans(spans, parents); }
    } else {
      CycleOfLinks(spans, parents);
    }
  }

  lemma IndexInside(spans: seq<Span>, index: map<UInt64, nat>)
    requires IndexOk(spans, index)
    ensures forall id :: id in index ==> index[id] < |spans|
  {
  }

  method MakeRows(spans: seq<Span>, children: map<UInt64, seq<Span>>, whole: bool) returns (rows: seq<Row>)
    requires Identified(spans) && Nested(spans) && ChildrenOk(spans, children)
    requires whole ==> forall x :: x in spans ==> x.end != 0
    ensures |rows| == |spans| && forall j :: 0 <= j < |rows| ==> rows[j].span == spans[j] && RowOk(spans, whole, rows[j])
  {
    hide Nested, Identified, ChildrenOk, RowOk;
    rows := [];
    for i := 0 to |spans|
      invariant |rows| == i && forall j :: 0 <= j < i ==> rows[j].span == spans[j] && RowOk(spans, whole, rows[j])
    {
      var row := MakeRow(spans, spans[i], children, whole);
      rows := rows + [row];
    }
  }

  lemma SortedRows(spans: seq<Span>, rows: seq<Row>)
    requires |rows| == |spans| && forall j :: 0 <= j < |rows| ==> rows[j].span == spans[j]
    ensures |Sort(RowLess, rows)| == |spans| && InOrder(Sort(RowLess, rows))
    ensures forall x :: x in Sort(RowLess, rows) <==> x in rows
    ensures forall s :: s in spans ==> exists x :: x in Sort(RowLess, rows) && x.span == s
  {
    hide Sort, Sorted, StrictWeak, InOrder;
    RowLessWeak();
    SortMembers(RowLess, rows);
    SortSorted(RowLess, rows);
    SortedInOrder(Sort(RowLess, rows));
    forall s | s in spans ensures exists x :: x in Sort(RowLess, rows) && x.span == s {
      var j :| 0 <= j < |spans| && spans[j] == s;
      assert rows[j] in rows && rows[j] in Sort(RowLess, rows);
    }
  }

  lemma RowLessWeak()
    ensures StrictWeak(RowLess)
  {
  }
}
