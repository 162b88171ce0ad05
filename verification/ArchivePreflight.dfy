/**
 The preflight of a source archive (internal/sourcearchive/archive.go), as far as names, kinds and
 sizes go: one pass over the entries accepts exactly the archives that a declarative rule admits.
 */
module ArchivePreflight {
  import opened Options
  import opened ArchiveNames
  import opened ArchivePaths

  /** An entry as the zip reader presents it. */
  datatype File = File(name: string, dir: bool, size: nat)

  datatype Limits = Limits(names: NameLimits, files: int, directories: int, fileBytes: nat, expandedBytes: nat)

  const GO_MOD: Path := ["go.mod"]

  function RootOf(f: File): string {
    Components(NameOf(f.name))[0]
  }

  /** The path below the archive's root. */
  function PathIn(f: File): Path {
    Components(NameOf(f.name))[1..]
  }

  predicate AtRoot(f: File) {
    PathIn(f) == []
  }

  predicate IsRegular(f: File) {
    !AtRoot(f) && !f.dir
  }

  /** The entries below the root. */
  function Entries(fs: seq<File>): seq<Entry> {
    if fs == [] then []
    else
      var init, f := Entries(fs[..|fs| - 1]), fs[|fs| - 1];
      if AtRoot(f) then init else init + [Entry(PathIn(f), f.dir)]
  }

  function RegularCount(fs: seq<File>): nat {
    if fs == [] then 0 else RegularCount(fs[..|fs| - 1]) + if IsRegular(fs[|fs| - 1]) then 1 else 0
  }

  function TotalBytes(fs: seq<File>): nat {
    if fs == [] then 0 else TotalBytes(fs[..|fs| - 1]) + if IsRegular(fs[|fs| - 1]) then fs[|fs| - 1].size else 0
  }

  /** Valid names under one root, at most one entry for the root itself, and it a directory. */
  ghost predicate NamesFine(fs: seq<File>, l: Limits) {
    && (forall i :: 0 <= i < |fs| ==> NameOk(fs[i].name, l.names))
    && (forall i :: 0 <= i < |fs| ==> RootOf(fs[i]) == RootOf(fs[0]))
    && (forall i :: 0 <= i < |fs| && AtRoot(fs[i]) ==> fs[i].dir)
    && (forall i, j :: 0 <= i < j < |fs| ==> !(AtRoot(fs[i]) && AtRoot(fs[j])))
  }

  /** Compatible paths, not too many directories, and go.mod not one of them. */
  ghost predicate PathsFine(fs: seq<File>, l: Limits) {
    && AllCompatible(Entries(fs), Lower)
    && (Entries(fs) != [] ==> |Directories(Entries(fs))| <= l.directories)
    && (forall i :: 0 <= i < |fs| && PathIn(fs[i]) == GO_MOD ==> !fs[i].dir)
  }

  /** Not too many regular files, none too large, and not too much in all. */
  ghost predicate SizesFine(fs: seq<File>, l: Limits) {
    && (RegularCount(fs) > 0 ==> RegularCount(fs) <= l.files)
    && (forall i :: 0 <= i < |fs| && IsRegular(fs[i]) ==> fs[i].size <= l.fileBytes)
    && TotalBytes(fs) <= l.expandedBytes
  }

  ghost predicate Fine(fs: seq<File>, l: Limits) {
    NamesFine(fs, l) && PathsFine(fs, l) && SizesFine(fs, l)
  }

  ghost predicate HasGoMod(fs: seq<File>) {
    exists i :: 0 <= i < |fs| && PathIn(fs[i]) == GO_MOD && !fs[i].dir
  }

  ghost predicate HasRootEntry(fs: seq<File>) {
    exists i :: 0 <= i < |fs| && AtRoot(fs[i])
  }

  /** What the preflight admits. */
  ghost predicate Admissible(fs: seq<File>, l: Limits) {
    fs != [] && Fine(fs, l) && HasGoMod(fs)
  }

  /* ---------- One file more ---------- */

  ghost predicate NameFits(fs: seq<File>, f: File, l: Limits) {
    && NameOk(f.name, l.names) && (fs != [] ==> RootOf(f) == RootOf(fs[0]))
    && (AtRoot(f) ==> f.dir && !HasRootEntry(fs))
  }

  ghost predicate PathFits(fs: seq<File>, f: File, l: Limits) {
    AtRoot(f) ||
    (&& !Objects(Entries(fs), Entry(PathIn(f), f.dir), Lower)
     && |Directories(Entries(fs) + [Entry(PathIn(f), f.dir)])| <= l.directories
     && (PathIn(f) == GO_MOD ==> !f.dir))
  }

  ghost predicate SizeFits(fs: seq<File>, f: File, l: Limits) {
    IsRegular(f) ==>
      RegularCount(fs) + 1 <= l.files && f.size <= l.fileBytes && TotalBytes(fs) + f.size <= l.expandedBytes
  }

  lemma NamesStep(fs: seq<File>, f: File, l: Limits)
    ensures NamesFine(fs + [f], l) <==> NamesFine(fs, l) && NameFits(fs, f, l)
  {
    hide NameOk, RootOf, AtRoot;
    var fs' := fs + [f];
    assert forall i :: 0 <= i < |fs| ==> fs'[i] == fs[i];
    assert fs'[|fs|] == f;
    if NamesFine(fs', l) && HasRootEntry(fs) {
      var i :| 0 <= i < |fs| && AtRoot(fs[i]);
      assert AtRoot(fs'[i]);
    }
  }

  lemma EntriesStep(fs: seq<File>, f: File)
    ensures Entries(fs + [f]) == if AtRoot(f) then Entries(fs) else Entries(fs) + [Entry(PathIn(f), f.dir)]
    ensures RegularCount(fs + [f]) == RegularCount(fs) + if IsRegular(f) then 1 else 0
    ensures TotalBytes(fs + [f]) == TotalBytes(fs) + if IsRegular(f) then f.size else 0
  {
    assert (fs + [f])[..|fs|] == fs;
  }

  lemma DirectoriesGrow(d: seq<Entry>, e: Entry)
    ensures |Directories(d)| <= |Directories(d + [e])|
  {
    assert (d + [e])[..|d|] == d;
    FewerDirectories(Directories(d), DirectoriesOf(e));
  }

  lemma FewerDirectories(a: set<Path>, b: set<Path>)
    ensures |a| <= |a + b|
  {
    assert a + b == a + (b - a);
  }

  lemma PathsStep(fs: seq<File>, f: File, l: Limits)
    ensures PathsFine(fs + [f], l) <==> PathsFine(fs, l) && PathFits(fs, f, l)
  {
    hide AllCompatible, Objects, Directories;
    var fs', d, e := fs + [f], Entries(fs), Entry(PathIn(f), f.dir);
    EntriesStep(fs, f);
    assert forall i :: 0 <= i < |fs| ==> fs'[i] == fs[i];
    assert fs'[|fs|] == f;
    if !AtRoot(f) {
      CompatibleStep(d, e);
      DirectoriesGrow(d, e);
    }
  }

  lemma CompatibleStep(d: seq<Entry>, e: Entry)
    ensures AllCompatible(d + [e], Lower) <==> AllCompatible(d, Lower) && !Objects(d, e, Lower)
  {
    var d' := d + [e];
    assert d'[..|d|] == d && d'[..|d| + 1] == d' && d'[|d|] == e;
    if AllCompatible(d, Lower) {
      CompatibleNext(d', |d|, Lower);
    } else {
      var i, j :| 0 <= i < j < |d| && !Compatible(d[i], d[j], Lower);
      assert d'[i] == d[i] && d'[j] == d[j];
    }
  }

  lemma SizesStep(fs: seq<File>, f: File, l: Limits)
    ensures SizesFine(fs + [f], l) <==> SizesFine(fs, l) && SizeFits(fs, f, l)
  {
    var fs' := fs + [f];
    EntriesStep(fs, f);
    assert forall i :: 0 <= i < |fs| ==> fs'[i] == fs[i];
    assert fs'[|fs|] == f;
  }

  lemma FineStep(fs: seq<File>, f: File, l: Limits)
    ensures Fine(fs + [f], l) <==> Fine(fs, l) && NameFits(fs, f, l) && PathFits(fs, f, l) && SizeFits(fs, f, l)
  {
    hide NamesFine, PathsFine, SizesFine, NameFits, PathFits, SizeFits;
    NamesStep(fs, f, l);
    PathsStep(fs, f, l);
    SizesStep(fs, f, l);
  }

  /** A prefix that is not fine spoils the archive. */
  lemma {:induction false} FinePrefix(fs: seq<File>, n: nat, l: Limits)
    requires n <= |fs| && Fine(fs, l)
    ensures Fine(fs[..n], l)
  {
    hide Fine;
    if n < |fs| {
      var init := fs[..|fs| - 1];
      assert fs == init + [fs[|fs| - 1]];
      FineStep(init, fs[|fs| - 1], l);
      FinePrefix(init, n, l);
      assert init[..n] == fs[..n];
    } else {
      assert fs[..n] == fs;
    }
  }

  /* ---------- The pass ---------- */

  /** What the pass has gathered from the files so far. */
  datatype Progress = Progress(trie: Trie, root: string, rootEntry: bool, rootGoMod: bool, regularFiles: nat, declared: nat)

  ghost predicate TableOk(t: Trie, at: map<nat, Path>, a: View, fs: seq<File>) {
    TrieOk(t, at, a, Lower) && ViewOk(a, Entries(fs), [])
  }

  ghost predicate Gathered(s: Progress, at: map<nat, Path>, a: View, fs: seq<File>) {
    && TableOk(s.trie, at, a, fs)
    && (s.root == "" <==> fs == []) && (fs != [] ==> s.root == RootOf(fs[0]))
    && (s.rootEntry <==> HasRootEntry(fs)) && (s.rootGoMod <==> HasGoMod(fs))
    && s.regularFiles == RegularCount(fs) && s.declared == TotalBytes(fs)
  }

  lemma GatheredNothing()
    ensures Gathered(Progress(Trie(map[], 1, 0), "", false, false, 0, 0), map[0 := []], map[], [])
  {
    EmptyTrie(Trie(map[], 1, 0), map[0 := []], map[], Lower);
  }

  lemma {:induction false} EntriesHavePaths(fs: seq<File>)
    ensures forall e :: e in Entries(fs) ==> e.path != []
  {
    if fs != [] { EntriesHavePaths(fs[..|fs| - 1]); }
  }

  lemma HasStep(fs: seq<File>, f: File)
    ensures HasRootEntry(fs + [f]) <==> HasRootEntry(fs) || AtRoot(f)
    ensures HasGoMod(fs + [f]) <==> HasGoMod(fs) || (PathIn(f) == GO_MOD && !f.dir)
  {
    hide AtRoot, PathIn;
    var fs' := fs + [f];
    assert forall i :: 0 <= i < |fs| ==> fs'[i] == fs[i];
    assert fs'[|fs|] == f;
    if HasRootEntry(fs) { var i :| 0 <= i < |fs| && AtRoot(fs[i]); assert AtRoot(fs'[i]); }
    if HasGoMod(fs) { var i :| 0 <= i < |fs| && PathIn(fs[i]) == GO_MOD && !fs[i].dir; assert PathIn(fs'[i]) == GO_MOD; }
  }

  /** Where a validated name puts a file. */
  lemma Located(f: File, v: ValidatedPath, l: Limits)
    requires NameOk(f.name, l.names) && PathOf(v, f.name)
    ensures RootOf(f) == v.root && v.root != "" && (AtRoot(f) <==> v.relative == "")
    ensures v.relative != "" ==> PathIn(f) == Components(v.relative) && (PathIn(f) == GO_MOD <==> v.relative == "go.mod")
  {
    hide Components;
    var cs := Components(NameOf(f.name));
    assert ComponentOk(cs[0], l.names);
    ComponentsJoin(v.relative);
    assert GO_MOD == ["go.mod"] && Joined(["go.mod"]) == "go.mod";
    GoModComponents();
  }

  lemma GoModComponents()
    ensures Components("go.mod") == GO_MOD
  {
    IndexIs("go.mod", '/', 6);
  }

  /** Files below the root: their path, their number and their size. */
  method AddBelow(s: Progress, f: File, relative: string, l: Limits, ghost at: map<nat, Path>, ghost a: View, ghost fs: seq<File>)
    returns (ok: bool, s': Progress, ghost at': map<nat, Path>, ghost a': View)
    requires Gathered(s, at, a, fs) && Fine(fs, l) && !AtRoot(f) && PathIn(f) == Components(relative)
    requires PathIn(f) == GO_MOD <==> relative == "go.mod"
    ensures ok <==> PathFits(fs, f, l) && SizeFits(fs, f, l)
    ensures ok ==> TableOk(s'.trie, at', a', fs + [f]) && s'.root == s.root && s'.rootEntry == s.rootEntry
    ensures ok ==> (s'.rootGoMod <==> HasGoMod(fs + [f]))
    ensures ok ==> s'.regularFiles == RegularCount(fs + [f]) && s'.declared == TotalBytes(fs + [f])
  {
    hide TrieOk, ViewOk, NamesFine, SizesFine, Objects, AllCompatible, Directories, HasGoMod, HasRootEntry, Components, Entries,
         RegularCount, TotalBytes, AtRoot, PathIn, RootOf;
    ghost var d, e := Entries(fs), Entry(PathIn(f), f.dir);
    s' := s;
    EntriesHavePaths(fs);
    EntriesStep(fs, f);
    HasStep(fs, f);
    var trie;
    ok, trie, at', a' := Insert(s.trie, relative, f.dir, at, a, d);
    if !ok { return; }
    CountedDirectories(trie, at', a', d + [e], Lower);
    s' := s.(trie := trie);
    if f.dir {
      if relative == "go.mod" { return false, s', at', a'; }
    } else {
      if s.regularFiles + 1 > l.files || f.size > l.fileBytes { return false, s', at', a'; }
      if f.size > l.expandedBytes || s.declared > l.expandedBytes - f.size { return false, s', at', a'; }
      s' := s'.(regularFiles := s.regularFiles + 1, declared := s.declared + f.size,
                rootGoMod := s.rootGoMod || relative == "go.mod");
    }
    ok := trie.directories <= l.directories;
  }

  /** One file: accepted exactly when the files so far and this one are fine together. */
  method AddFile(s: Progress, f: File, l: Limits, ghost at: map<nat, Path>, ghost a: View, ghost fs: seq<File>)
    returns (ok: bool, s': Progress, ghost at': map<nat, Path>, ghost a': View)
    requires Gathered(s, at, a, fs) && Fine(fs, l)
    ensures ok <==> Fine(fs + [f], l)
    ensures ok ==> Gathered(s', at', a', fs + [f])
  {
    hide Fine, TrieOk, ViewOk, PathFits, SizeFits, HasGoMod, HasRootEntry, NameOk, AtRoot, PathIn, RootOf;
    FineStep(fs, f, l);
    EntriesStep(fs, f);
    HasStep(fs, f);
    s', at', a' := s, at, a;
    var path := ValidateArchivePath(f.name, l.names);
    if path.None? { return false, s', at', a'; }
    Located(f, path.value, l);
    assert (fs + [f])[0] == if fs == [] then f else fs[0];
    if s.root == "" {
      s' := s'.(root := path.value.root);
    } else if s.root != path.value.root {
      return false, s', at', a';
    }
    if path.value.relative == "" {
      if !f.dir || s.rootEntry { return false, s', at', a'; }
      RootFits(fs, f, l);
      s' := s'.(rootEntry := true);
      return true, s', at', a';
    }
    var root := s'.root;
    ok, s', at', a' := AddBelow(s, f, path.value.relative, l, at, a, fs);
    s' := s'.(root := root);
  }

  lemma RootFits(fs: seq<File>, f: File, l: Limits)
    requires AtRoot(f)
    ensures PathFits(fs, f, l) && SizeFits(fs, f, l) && PathIn(f) != GO_MOD
  {
  }

  /** Accepts exactly the admissible archives. */
  method Preflight(files: seq<File>, l: Limits) returns (ok: bool)
    ensures ok <==> Admissible(files, l)
  {
    hide Fine, Gathered;
    var s := Progress(Trie(map[], 1, 0), "", false, false, 0, 0);
    ghost var at, a: View := map[0 := []], map[];
    GatheredNothing();
    NothingFine(l);
    assert files[..0] == [];
    for i := 0 to |files|
      invariant Gathered(s, at, a, files[..i]) && Fine(files[..i], l)
    {
      assert files[..i + 1] == files[..i] + [files[i]];
      var added;
      added, s, at, a := AddFile(s, files[i], l, at, a, files[..i]);
      if !added {
        if Fine(files, l) { FinePrefix(files, i + 1, l); }
        return false;
      }
    }
    assert files[..|files|] == files;
    ok := s.root != "" && s.rootGoMod;
    GatheredMeans(s, at, a, files);
  }

  lemma NothingFine(l: Limits)
    ensures Fine([], l)
  {
  }

  lemma GatheredMeans(s: Progress, at: map<nat, Path>, a: View, fs: seq<File>)
    requires Gathered(s, at, a, fs)
    ensures (s.root == "" <==> fs == []) && (s.rootGoMod <==> HasGoMod(fs))
  {
  }
}
