/**
 The path table of an archive preflight (internal/sourcearchive/archive.go): entries are walked
 component by component through numbered nodes keyed by folded spelling. It accepts exactly the
 pairwise compatible entries. The specification takes paths as component lists below the archive's
 root; the walk works on the text of a path and of its lower-case spelling.
 */
module ArchivePaths {
  import opened Options
  import opened ArchiveNames

  type Path = seq<string>

  datatype Entry = Entry(path: Path, dir: bool)

  /* ---------- The pairwise specification ---------- */

  function Folded(p: Path, fold: string -> string): (r: Path)
    ensures |r| == |p| && forall i :: 0 <= i < |p| ==> r[i] == fold(p[i])
  {
    seq(|p|, i requires 0 <= i < |p| => fold(p[i]))
  }

  /** Prefixes that agree up to folding are spelled alike. */
  ghost predicate SpelledAlike(a: Path, b: Path, n: nat, fold: string -> string) {
    forall k :: 0 <= k <= n && k <= |a| && k <= |b| && Folded(a[..k], fold) == Folded(b[..k], fold) ==> a[..k] == b[..k]
  }

  /** Two entries may stand in one archive. */
  ghost predicate Compatible(a: Entry, b: Entry, fold: string -> string) {
    && SpelledAlike(a.path, b.path, |b.path|, fold)
    && a.path != b.path
    && (a.path < b.path ==> a.dir)
    && (b.path < a.path ==> b.dir)
  }

  ghost predicate AllCompatible(d: seq<Entry>, fold: string -> string) {
    forall i, j :: 0 <= i < j < |d| ==> Compatible(d[i], d[j], fold)
  }

  /** Every directory an entry needs: its proper prefixes, and itself if it is one. */
  function DirectoriesOf(e: Entry): set<Path> {
    set k | 0 < k <= |e.path| && (k < |e.path| || e.dir) :: e.path[..k]
  }

  function Directories(d: seq<Entry>): set<Path> {
    if |d| == 0 then {} else Directories(d[..|d| - 1]) + DirectoriesOf(d[|d| - 1])
  }

  /* ---------- The table as a map from spelled prefixes ---------- */

  datatype Info = Info(directory: bool, explicit: bool)

  type View = map<Path, Info>

  predicate Within(p: Path, q: Path) {
    p <= q
  }

  lemma WithinNext(p: Path, q: Path, c: string)
    ensures Within(p, q + [c]) <==> Within(p, q) || p == q + [c]
    ensures p < q + [c] <==> Within(p, q)
  {
  }

  ghost predicate Under(d: seq<Entry>, p: Path) {
    exists e :: e in d && p <= e.path
  }

  ghost predicate IsEntry(d: seq<Entry>, p: Path) {
    exists e :: e in d && e.path == p
  }

  ghost predicate IsDirectory(d: seq<Entry>, p: Path) {
    exists e :: e in d && (p < e.path || (e.path == p && e.dir))
  }

  ghost predicate ViewAt(a: View, d: seq<Entry>, q: Path, p: Path) {
    && (p in a <==> p != [] && (Within(p, q) || Under(d, p)))
    && (p in a ==> (a[p].explicit <==> IsEntry(d, p)))
    && (p in a ==> (a[p].directory <==> Within(p, q) || IsDirectory(d, p)))
  }

  /** The view of entries d, with the prefixes of q entered as directories besides. */
  ghost predicate ViewOk(a: View, d: seq<Entry>, q: Path) {
    forall p :: ViewAt(a, d, q, p)
  }

  /** The first k components of n raise no objection from d. */
  ghost predicate Clear(d: seq<Entry>, n: Entry, k: nat, fold: string -> string) {
    forall e :: e in d ==> SpelledAlike(e.path, n.path, k, fold) && (|e.path| <= k && e.path < n.path ==> e.dir)
  }

  lemma ClearStart(d: seq<Entry>, n: Entry, fold: string -> string)
    requires forall e :: e in d ==> e.path != []
    ensures Clear(d, n, 0, fold)
  {
  }

  lemma FoldedNext(a: Path, b: Path, k: nat, fold: string -> string)
    requires k < |a| && k < |b|
    ensures Folded(a[..k + 1], fold) == Folded(b[..k + 1], fold)
        <==> Folded(a[..k], fold) == Folded(b[..k], fold) && fold(a[k]) == fold(b[k])
  {
    var x, y := Folded(a[..k + 1], fold), Folded(b[..k + 1], fold);
    assert x == Folded(a[..k], fold) + [fold(a[k])];
    assert y == Folded(b[..k], fold) + [fold(b[k])];
  }

  /** A prefix that is spelled like nothing else of its fold, and whose file entries are absent, is clear one further. */
  lemma ClearNext(d: seq<Entry>, n: Entry, k: nat, fold: string -> string)
    requires Clear(d, n, k, fold) && k < |n.path|
    requires forall e :: e in d && k < |e.path| && e.path[..k] == n.path[..k] && fold(e.path[k]) == fold(n.path[k]) ==> e.path[k] == n.path[k]
    requires forall e :: e in d && e.path == n.path[..k + 1] && k + 1 < |n.path| ==> e.dir
    ensures Clear(d, n, k + 1, fold)
  {
    forall e | e in d ensures SpelledAlike(e.path, n.path, k + 1, fold) && (|e.path| <= k + 1 && e.path < n.path ==> e.dir) {
      assert SpelledAlike(e.path, n.path, k, fold);
      if k < |e.path| && Folded(e.path[..k + 1], fold) == Folded(n.path[..k + 1], fold) {
        FoldedNext(e.path, n.path, k, fold);
        assert e.path[..k] == n.path[..k];
        assert e.path[..k + 1] == e.path[..k] + [e.path[k]];
        assert n.path[..k + 1] == n.path[..k] + [n.path[k]];
      }
    }
  }

  ghost predicate Objects(d: seq<Entry>, n: Entry, fold: string -> string) {
    exists e :: e in d && !Compatible(e, n, fold)
  }

  /** A known sibling of the same fold but another spelling belongs to an incompatible entry. */
  lemma CollisionObjects(a: View, d: seq<Entry>, n: Entry, k: nat, c: string, fold: string -> string)
    requires k < |n.path| && ViewOk(a, d, n.path[..k])
    requires n.path[..k] + [c] in a && fold(c) == fold(n.path[k]) && c != n.path[k]
    ensures Objects(d, n, fold)
  {
    var p := n.path[..k] + [c];
    assert ViewAt(a, d, n.path[..k], p) && !Within(p, n.path[..k]);
    var e :| e in d && p <= e.path;
    assert e.path[..k + 1] == p;
    assert e.path[k] == c && e.path[..k] == n.path[..k];
    FoldedNext(e.path, n.path, k, fold);
    assert n.path[..k + 1] == n.path[..k] + [n.path[k]];
    assert !SpelledAlike(e.path, n.path, |n.path|, fold);
  }

  /** A file that is a proper prefix belongs to an incompatible entry. */
  lemma FileObjects(a: View, d: seq<Entry>, n: Entry, k: nat, fold: string -> string)
    requires k + 1 < |n.path| && ViewOk(a, d, n.path[..k])
    requires n.path[..k + 1] in a && !a[n.path[..k + 1]].directory
    ensures Objects(d, n, fold)
  {
    var p := n.path[..k + 1];
    assert ViewAt(a, d, n.path[..k], p) && !Within(p, n.path[..k]);
    assert !IsDirectory(d, p);
    var e :| e in d && p <= e.path;
    assert e.path == p && !e.dir;
    assert !Compatible(e, n, fold);
  }

  /** A repeated path, or a file where others need a directory, belongs to an incompatible entry. */
  lemma RepeatObjects(a: View, d: seq<Entry>, n: Entry, k: nat, fold: string -> string)
    requires k + 1 == |n.path| && ViewOk(a, d, n.path[..k]) && n.path in a
    requires a[n.path].explicit || a[n.path].directory != n.dir
    ensures Objects(d, n, fold)
  {
    assert ViewAt(a, d, n.path[..k], n.path) && !Within(n.path, n.path[..k]);
    if a[n.path].explicit {
      var e :| e in d && e.path == n.path;
      assert !Compatible(e, n, fold);
    } else {
      assert Under(d, n.path) && !IsEntry(d, n.path);
      var e :| e in d && n.path <= e.path;
      assert n.path < e.path;
      assert IsDirectory(d, n.path);
      assert !Compatible(e, n, fold);
    }
  }

  /** Only this spelling of the fold is known at this place. */
  ghost predicate OnlySpelling(a: View, p: Path, c: string, fold: string -> string) {
    forall x :: fold(x) == fold(c) && p + [x] in a ==> x == c
  }

  lemma SameSpelling(a: View, d: seq<Entry>, n: Entry, k: nat, fold: string -> string)
    requires k < |n.path| && ViewOk(a, d, n.path[..k]) && OnlySpelling(a, n.path[..k], n.path[k], fold)
    ensures forall e :: e in d && k < |e.path| && e.path[..k] == n.path[..k] && fold(e.path[k]) == fold(n.path[k]) ==> e.path[k] == n.path[k]
  {
    forall e | e in d && k < |e.path| && e.path[..k] == n.path[..k] && fold(e.path[k]) == fold(n.path[k]) ensures e.path[k] == n.path[k] {
      var p := n.path[..k] + [e.path[k]];
      assert p == e.path[..k + 1] && p <= e.path;
      assert Under(d, p) && ViewAt(a, d, n.path[..k], p);
    }
  }

  /** In a compatible archive, a directory is not also a file. */
  lemma DirectoryNotFile(d: seq<Entry>, p: Path, e: Entry, fold: string -> string)
    requires AllCompatible(d, fold) && IsDirectory(d, p) && e in d && e.path == p
    ensures e.dir
  {
    var x :| x in d && (p < x.path || (x.path == p && x.dir));
    var i :| 0 <= i < |d| && d[i] == e;
    var j :| 0 <= j < |d| && d[j] == x;
    if i < j { assert Compatible(d[i], d[j], fold); }
    if j < i { assert Compatible(d[j], d[i], fold); }
  }

  /** Passing a directory component: known as a directory, or new. */
  lemma PassDirectory(a: View, d: seq<Entry>, n: Entry, k: nat, fold: string -> string)
    requires AllCompatible(d, fold) && k + 1 < |n.path| && ViewOk(a, d, n.path[..k]) && Clear(d, n, k, fold)
    requires OnlySpelling(a, n.path[..k], n.path[k], fold)
    requires n.path[..k + 1] in a ==> a[n.path[..k + 1]].directory
    ensures Clear(d, n, k + 1, fold)
  {
    SameSpelling(a, d, n, k, fold);
    var p := n.path[..k + 1];
    assert ViewAt(a, d, n.path[..k], p) && !Within(p, n.path[..k]);
    forall e | e in d && e.path == p ensures e.dir {
      assert Under(d, p);
      DirectoryNotFile(d, p, e, fold);
    }
    ClearNext(d, n, k, fold);
  }

  lemma EntryIsUnder(d: seq<Entry>, p: Path)
    ensures IsEntry(d, p) || IsDirectory(d, p) ==> Under(d, p)
  {
  }

  lemma ViewExtends(a: View, d: seq<Entry>, q: Path, c: string)
    requires ViewOk(a, d, q) && (q + [c] in a ==> a[q + [c]].directory)
    ensures ViewOk(if q + [c] in a then a else a[q + [c] := Info(true, false)], d, q + [c])
  {
    hide Under, IsEntry, IsDirectory, Within;
    var a' := if q + [c] in a then a else a[q + [c] := Info(true, false)];
    forall p ensures ViewAt(a', d, q + [c], p) {
      assert ViewAt(a, d, q, p) && ViewAt(a, d, q, q + [c]);
      WithinNext(p, q, c);
      EntryIsUnder(d, p);
    }
  }

  /** The last component: new, or so far only an implied directory. */
  lemma PassFinal(a: View, d: seq<Entry>, n: Entry, k: nat, fold: string -> string)
    requires k + 1 == |n.path| && ViewOk(a, d, n.path[..k]) && Clear(d, n, k, fold)
    requires OnlySpelling(a, n.path[..k], n.path[k], fold)
    requires n.path in a ==> !a[n.path].explicit && a[n.path].directory == n.dir
    ensures !Objects(d, n, fold)
  {
    SameSpelling(a, d, n, k, fold);
    ClearNext(d, n, k, fold);
    assert ViewAt(a, d, n.path[..k], n.path);
    forall e | e in d ensures Compatible(e, n, fold) {
      if n.path <= e.path {
        assert Under(d, n.path);
        assert e.path == n.path ==> IsEntry(d, n.path);
        if n.path < e.path { assert IsDirectory(d, n.path); }
      }
    }
  }

  lemma EntriesAppend(d: seq<Entry>, n: Entry, p: Path)
    ensures Under(d + [n], p) <==> Under(d, p) || Within(p, n.path)
    ensures IsEntry(d + [n], p) <==> IsEntry(d, p) || p == n.path
    ensures IsDirectory(d + [n], p) <==> IsDirectory(d, p) || p < n.path || (p == n.path && n.dir)
  {
    var d' := d + [n];
    if Under(d, p) { var e :| e in d && p <= e.path; assert e in d'; }
    if IsEntry(d, p) { var e :| e in d && e.path == p; assert e in d'; }
    if IsDirectory(d, p) { var e :| e in d && (p < e.path || (e.path == p && e.dir)); assert e in d'; }
    assert n in d';
  }

  lemma ViewFinal(a: View, d: seq<Entry>, n: Entry, q: Path, c: string)
    requires ViewOk(a, d, q) && n.path == q + [c]
    requires n.path in a ==> !a[n.path].explicit && a[n.path].directory == n.dir
    ensures ViewOk(a[n.path := Info(n.dir, true)], d + [n], [])
  {
    hide Under, IsEntry, IsDirectory;
    var a' := a[n.path := Info(n.dir, true)];
    forall p ensures ViewAt(a', d + [n], [], p) {
      assert ViewAt(a, d, q, p) && ViewAt(a, d, q, n.path);
      EntriesAppend(d, n, p);
      EntryIsUnder(d, p);
      WithinNext(p, q, c);
      WithinNext(n.path, q, c);
    }
  }

  /* ---------- Numbered nodes ---------- */

  datatype Node = Node(id: nat, component: string, directory: bool, explicit: bool)

  type NodeKey = (nat, string)

  datatype Trie = Trie(nodes: map<NodeKey, Node>, next: nat, directories: nat)

  function DirectorySet(a: View): set<Path> {
    set p | p in a && a[p].directory
  }

  ghost predicate NodeOk(t: Trie, at: map<nat, Path>, a: View, fold: string -> string, key: NodeKey)
    requires key in t.nodes
  {
    var node := t.nodes[key];
    && key.0 in at && node.id in at && at[node.id] == at[key.0] + [node.component] && fold(node.component) == key.1
    && at[node.id] in a && a[at[node.id]] == Info(node.directory, node.explicit)
  }

  ghost predicate ChildrenOk(t: Trie, at: map<nat, Path>, a: View, fold: string -> string, i: nat, c: string)
    requires i in at
  {
    at[i] + [c] in a ==> (i, fold(c)) in t.nodes && t.nodes[(i, fold(c))].component == c
  }

  /** Numbers stand for spelled prefixes; keys of a parent and a fold find exactly the view's children. */
  ghost predicate TrieOk(t: Trie, at: map<nat, Path>, a: View, fold: string -> string) {
    && 0 in at && at[0] == []
    && (forall i :: i in at ==> i < t.next && (i == 0 || at[i] in a))
    && (forall i, j :: i in at && j in at && at[i] == at[j] ==> i == j)
    && (forall key :: key in t.nodes ==> NodeOk(t, at, a, fold, key))
    && (forall i, c :: i in at ==> ChildrenOk(t, at, a, fold, i, c))
    && t.directories == |DirectorySet(a)|
  }

  function WithNode(t: Trie, parent: nat, c: string, folded: string, directory: bool, explicit: bool): Trie {
    Trie(t.nodes[(parent, folded) := Node(t.next, c, directory, explicit)], t.next + 1, t.directories + if directory then 1 else 0)
  }

  ghost predicate CanAdd(t: Trie, at: map<nat, Path>, a: View, fold: string -> string, parent: nat, c: string) {
    && TrieOk(t, at, a, fold) && parent in at && (parent, fold(c)) !in t.nodes
    && (forall x :: at[parent] + [c] + [x] !in a)
  }

  lemma AddedIsNew(t: Trie, at: map<nat, Path>, a: View, fold: string -> string, parent: nat, c: string)
    requires CanAdd(t, at, a, fold, parent, c)
    ensures at[parent] + [c] !in a && t.next !in at
    ensures forall i :: i in at ==> at[i] != at[parent] + [c]
  {
    assert ChildrenOk(t, at, a, fold, parent, c);
  }

  lemma AddedNode(t: Trie, at: map<nat, Path>, a: View, fold: string -> string, parent: nat, c: string, info: Info, key: NodeKey)
    requires CanAdd(t, at, a, fold, parent, c) && (key in t.nodes || key == (parent, fold(c)))
    ensures NodeOk(WithNode(t, parent, c, fold(c), info.directory, info.explicit), at[t.next := at[parent] + [c]], a[at[parent] + [c] := info], fold, key)
  {
    AddedIsNew(t, at, a, fold, parent, c);
    if key in t.nodes { assert NodeOk(t, at, a, fold, key); }
  }

  lemma AddedChild(t: Trie, at: map<nat, Path>, a: View, fold: string -> string, parent: nat, c: string, info: Info, i: nat, x: string)
    requires CanAdd(t, at, a, fold, parent, c) && (i in at || i == t.next)
    ensures ChildrenOk(WithNode(t, parent, c, fold(c), info.directory, info.explicit), at[t.next := at[parent] + [c]], a[at[parent] + [c] := info], fold, i, x)
  {
    AddedIsNew(t, at, a, fold, parent, c);
    if i in at {
      assert ChildrenOk(t, at, a, fold, i, x);
      if at[i] + [x] == at[parent] + [c] { LastComponent(at[i], x, at[parent], c); }
    } else {
      assert |at[parent] + [c] + [x]| != |at[parent] + [c]|;
    }
  }

  lemma AddNode(t: Trie, at: map<nat, Path>, a: View, fold: string -> string, parent: nat, c: string, info: Info)
    requires CanAdd(t, at, a, fold, parent, c)
    ensures TrieOk(WithNode(t, parent, c, fold(c), info.directory, info.explicit), at[t.next := at[parent] + [c]], a[at[parent] + [c] := info], fold)
  {
    hide NodeOk, ChildrenOk;
    AddedIsNew(t, at, a, fold, parent, c);
    var q := at[parent] + [c];
    var t', at', a' := WithNode(t, parent, c, fold(c), info.directory, info.explicit), at[t.next := q], a[q := info];
    forall key | key in t'.nodes ensures NodeOk(t', at', a', fold, key) {
      AddedNode(t, at, a, fold, parent, c, info, key);
    }
    forall i, x | i in at' ensures ChildrenOk(t', at', a', fold, i, x) {
      AddedChild(t, at, a, fold, parent, c, info, i, x);
    }
    assert DirectorySet(a') == DirectorySet(a) + if info.directory then {q} else {};
  }

  lemma LastComponent(p: Path, x: string, q: Path, c: string)
    requires p + [x] == q + [c]
    ensures p == q && x == c
  {
    assert p == (p + [x])[..|p|] && q == (q + [c])[..|q|];
    assert x == (p + [x])[|p|] && c == (q + [c])[|q|];
  }

  /** An implied directory becomes an entry. */
  lemma MarkNode(t: Trie, at: map<nat, Path>, a: View, fold: string -> string, key: NodeKey)
    requires TrieOk(t, at, a, fold) && key in t.nodes
    ensures var node := t.nodes[key];
            && node.id in at && at[node.id] in a
            && TrieOk(t.(nodes := t.nodes[key := node.(explicit := true)]), at, a[at[node.id] := a[at[node.id]].(explicit := true)], fold)
  {
    var node := t.nodes[key];
    assert NodeOk(t, at, a, fold, key);
    var q := at[node.id];
    var t', a' := t.(nodes := t.nodes[key := node.(explicit := true)]), a[q := a[q].(explicit := true)];
    forall k | k in t'.nodes ensures NodeOk(t', at, a', fold, k) {
      assert NodeOk(t, at, a, fold, k);
      if at[t.nodes[k].id] == q {
        LastComponent(at[k.0], t.nodes[k].component, at[key.0], node.component);
      }
    }
    forall i, x | i in at ensures ChildrenOk(t', at, a', fold, i, x) {
      assert ChildrenOk(t, at, a, fold, i, x);
    }
    assert DirectorySet(a') == DirectorySet(a);
  }

  lemma FoundSpelling(t: Trie, at: map<nat, Path>, a: View, fold: string -> string, parent: nat, c: string)
    requires TrieOk(t, at, a, fold) && parent in at
    ensures (parent, fold(c)) in t.nodes ==>
              var node := t.nodes[(parent, fold(c))];
              && node.id in at && at[node.id] == at[parent] + [node.component] && fold(node.component) == fold(c)
              && at[node.id] in a && a[at[node.id]] == Info(node.directory, node.explicit)
              && (node.component == c ==> OnlySpelling(a, at[parent], c, fold))
    ensures (parent, fold(c)) !in t.nodes ==> OnlySpelling(a, at[parent], c, fold) && at[parent] + [c] !in a
  {
    if (parent, fold(c)) in t.nodes { assert NodeOk(t, at, a, fold, (parent, fold(c))); }
    forall x | fold(x) == fold(c) && at[parent] + [x] in a
      ensures (parent, fold(c)) in t.nodes && t.nodes[(parent, fold(c))].component == x
    {
      assert ChildrenOk(t, at, a, fold, parent, x);
    }
    if (parent, fold(c)) !in t.nodes { assert ChildrenOk(t, at, a, fold, parent, c); }
  }

  lemma UnderPrefix(d: seq<Entry>, p: Path, r: Path)
    requires p <= r
    ensures Under(d, r) ==> Under(d, p)
  {
  }

  /** Below a path that is not in the view there is nothing. */
  lemma NothingBelow(a: View, d: seq<Entry>, q: Path, c: string)
    requires ViewOk(a, d, q) && q + [c] !in a
    ensures forall x :: q + [c] + [x] !in a
  {
    hide Under;
    forall x ensures q + [c] + [x] !in a {
      var r := q + [c] + [x];
      assert ViewAt(a, d, q, q + [c]) && ViewAt(a, d, q, r);
      UnderPrefix(d, q + [c], r);
    }
  }

  /* ---------- Walking one entry ---------- */

  /** Where a walk stands before component k of its entry. */
  ghost predicate Walking(t: Trie, at: map<nat, Path>, a: View, d: seq<Entry>, n: Entry, k: nat, parent: nat, fold: string -> string) {
    && k < |n.path| && AllCompatible(d, fold)
    && TrieOk(t, at, a, fold) && ViewOk(a, d, n.path[..k]) && Clear(d, n, k, fold)
    && parent in at && at[parent] == n.path[..k]
  }

  /** One component that is not the last. */
  method Descend(t: Trie, c: string, folded: string, parent: nat, ghost n: Entry, ghost k: nat, ghost fold: string -> string,
                 ghost at: map<nat, Path>, ghost a: View, ghost d: seq<Entry>)
    returns (ok: bool, t': Trie, child: nat, ghost at': map<nat, Path>, ghost a': View)
    requires Walking(t, at, a, d, n, k, parent, fold) && k + 1 < |n.path| && c == n.path[k] && folded == fold(c)
    ensures !ok ==> Objects(d, n, fold)
    ensures ok ==> Walking(t', at', a', d, n, k + 1, child, fold)
  {
    hide TrieOk, ViewOk, Clear, AllCompatible, Objects, OnlySpelling;
    assert n.path[..k + 1] == n.path[..k] + [c];
    t', child, at', a' := t, parent, at, a;
    FoundSpelling(t, at, a, fold, parent, c);
    if (parent, folded) in t.nodes {
      var node := t.nodes[(parent, folded)];
      if node.component != c {
        CollisionObjects(a, d, n, k, node.component, fold);
        return false, t', child, at', a';
      }
      if !node.directory {
        FileObjects(a, d, n, k, fold);
        return false, t', child, at', a';
      }
      child := node.id;
    } else {
      NothingBelow(a, d, n.path[..k], c);
      AddNode(t, at, a, fold, parent, c, Info(true, false));
      t' := WithNode(t, parent, c, folded, true, false);
      child := t.next;
      at', a' := at[t.next := n.path[..k + 1]], a[n.path[..k + 1] := Info(true, false)];
    }
    PassDirectory(a, d, n, k, fold);
    ViewExtends(a, d, n.path[..k], c);
    ok := true;
  }

  /** The last component. */
  method Place(t: Trie, c: string, folded: string, dir: bool, parent: nat, ghost n: Entry, ghost k: nat, ghost fold: string -> string,
               ghost at: map<nat, Path>, ghost a: View, ghost d: seq<Entry>)
    returns (ok: bool, t': Trie, ghost at': map<nat, Path>, ghost a': View)
    requires Walking(t, at, a, d, n, k, parent, fold) && k + 1 == |n.path|
    requires c == n.path[k] && folded == fold(c) && dir == n.dir
    ensures ok <==> !Objects(d, n, fold)
    ensures ok ==> TrieOk(t', at', a', fold) && ViewOk(a', d + [n], [])
  {
    hide TrieOk, ViewOk, Clear, AllCompatible, Objects, OnlySpelling;
    assert n.path == n.path[..k] + [c];
    t', at', a' := t, at, a;
    FoundSpelling(t, at, a, fold, parent, c);
    if (parent, folded) in t.nodes {
      var key := (parent, folded);
      var node := t.nodes[key];
      if node.component != c {
        CollisionObjects(a, d, n, k, node.component, fold);
        return false, t', at', a';
      }
      if node.explicit || node.directory != dir {
        RepeatObjects(a, d, n, k, fold);
        return false, t', at', a';
      }
      MarkNode(t, at, a, fold, key);
      t' := t.(nodes := t.nodes[key := node.(explicit := true)]);
    } else {
      NothingBelow(a, d, n.path[..k], c);
      AddNode(t, at, a, fold, parent, c, Info(n.dir, true));
      t' := WithNode(t, parent, c, folded, dir, true);
      at' := at[t.next := n.path];
    }
    a' := a[n.path := Info(n.dir, true)];
    PassFinal(a, d, n, k, fold);
    ViewFinal(a, d, n, n.path[..k], c);
    ok := true;
  }

  /** The entry of a relative path. */
  function EntryOf(relative: string, dir: bool): Entry {
    Entry(Components(relative), dir)
  }

  /**
   Walks one relative path, reading the same stretch of its text and of its canonical spelling at every
   step: refused exactly when some earlier entry is incompatible with it.
   */
  method Insert(t: Trie, relative: string, dir: bool, ghost at: map<nat, Path>, ghost a: View, ghost d: seq<Entry>)
    returns (ok: bool, t': Trie, ghost at': map<nat, Path>, ghost a': View)
    requires AllCompatible(d, Lower) && (forall e :: e in d ==> e.path != [])
    requires TrieOk(t, at, a, Lower) && ViewOk(a, d, [])
    ensures ok <==> !Objects(d, EntryOf(relative, dir), Lower)
    ensures ok ==> TrieOk(t', at', a', Lower) && ViewOk(a', d + [EntryOf(relative, dir)], [])
  {
    hide ViewOk, Clear, AllCompatible, Objects, TrieOk, Components;
    var canonical := CanonicalPortablePath(relative);
    ghost var n := EntryOf(relative, dir);
    ghost var k := 0;
    t', at', a' := t, at, a;
    ClearStart(d, n, Lower);
    RootNode(t, at, a, Lower);
    assert n.path[..0] == [] && n.path[0..] == n.path && relative[0..] == relative;
    var parent, componentStart := 0, 0;
    while true
      invariant componentStart <= |relative| && Walking(t', at', a', d, n, k, parent, Lower)
      invariant Components(relative[componentStart..]) == n.path[k..]
      decreases |relative| - componentStart
    {
      var slash := IndexOf(canonical[componentStart..], '/');
      var componentEnd := componentStart + slash;
      Stretch(relative, componentStart, componentEnd);
      var folded := canonical[componentStart..componentEnd];
      var component := relative[componentStart..componentEnd];
      assert component == n.path[k..][0] == n.path[k];
      if componentEnd == |canonical| {
        ok, t', at', a' := Place(t', component, folded, dir, parent, n, k, Lower, at', a', d);
        return;
      }
      ok, t', parent, at', a' := Descend(t', component, folded, parent, n, k, Lower, at', a', d);
      if !ok { return; }
      assert n.path[k..][1..] == n.path[k + 1..];
      componentStart, k := componentEnd + 1, k + 1;
    }
  }

  lemma RootNode(t: Trie, at: map<nat, Path>, a: View, fold: string -> string)
    requires TrieOk(t, at, a, fold)
    ensures 0 in at && at[0] == []
  {
  }

  /** The next component, found in the canonical spelling, is the name's own. */
  lemma Stretch(relative: string, start: nat, end: nat)
    requires start <= |relative| && end == start + IndexOf(Lower(relative)[start..], '/')
    ensures Lower(relative)[start..end] == Lower(relative[start..end])
    ensures Components(relative[start..]) ==
            if end == |relative| then [relative[start..end]] else [relative[start..end]] + Components(relative[end + 1..])
  {
    hide Components;
    var tail := Lower(relative)[start..];
    forall i | start <= i < end ensures relative[i] != '/' {
      assert tail[i - start] == LowerChar(relative[i]);
    }
    if end < |relative| { assert tail[end - start] == LowerChar(relative[end]); }
    ComponentsAt(relative, start, end);
  }

  /* ---------- The whole archive ---------- */

  lemma EmptyTrie(t: Trie, at: map<nat, Path>, a: View, fold: string -> string)
    requires t == Trie(map[], 1, 0) && at == map[0 := []] && a == map[]
    ensures TrieOk(t, at, a, fold) && ViewOk(a, [], [])
  {
    forall p ensures ViewAt(a, [], [], p) {
    }
  }

  lemma CompatibleNext(entries: seq<Entry>, i: int, fold: string -> string)
    requires 0 <= i < |entries| && AllCompatible(entries[..i], fold)
    ensures !Objects(entries[..i], entries[i], fold) <==> AllCompatible(entries[..i + 1], fold)
    ensures Objects(entries[..i], entries[i], fold) ==> !AllCompatible(entries, fold)
  {
    hide Compatible;
    if Objects(entries[..i], entries[i], fold) {
      var e :| e in entries[..i] && !Compatible(e, entries[i], fold);
      var j :| 0 <= j < i && entries[j] == e;
      assert !Compatible(entries[j], entries[i], fold);
      assert !Compatible(entries[..i + 1][j], entries[..i + 1][i], fold);
    } else {
      forall x, y | 0 <= x < y < i + 1 ensures Compatible(entries[x], entries[y], fold) {
        if y < i { assert Compatible(entries[..i][x], entries[..i][y], fold); } else { assert entries[x] in entries[..i]; }
      }
    }
  }

  lemma {:induction false} DirectoriesMember(d: seq<Entry>, p: Path)
    ensures p in Directories(d) <==> p != [] && IsDirectory(d, p)
    decreases |d|
  {
    if |d| > 0 {
      var front, n := d[..|d| - 1], d[|d| - 1];
      assert d == front + [n];
      DirectoriesMember(front, p);
      EntriesAppend(front, n, p);
      DirectoriesOfMember(n, p);
    }
  }

  lemma DirectoriesOfMember(e: Entry, p: Path)
    ensures p in DirectoriesOf(e) <==> p != [] && (p < e.path || (p == e.path && e.dir))
  {
    if p != [] && (p < e.path || (p == e.path && e.dir)) { assert p == e.path[..|p|]; }
  }

  lemma CountedDirectories(t: Trie, at: map<nat, Path>, a: View, d: seq<Entry>, fold: string -> string)
    requires TrieOk(t, at, a, fold) && ViewOk(a, d, [])
    ensures t.directories == |Directories(d)|
  {
    forall p ensures p in DirectorySet(a) <==> p in Directories(d) {
      assert ViewAt(a, d, [], p);
      DirectoriesMember(d, p);
      EntryIsUnder(d, p);
    }
    assert DirectorySet(a) == Directories(d);
  }
}
