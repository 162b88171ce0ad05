/**
 Code images of the JIT journal (internal/jitprofile): an exhaustive region table, sparse
 compiler-site and source tables, and inline ancestry.
 */
module CodeImages {
  import opened FiniteSets
  import opened Options
  import opened Sorting
  import opened Words
  import opened UnwindRules

  datatype Span = Span(offset: UInt64, size: UInt64) {
    function End(): int {
      offset + size
    }

    predicate Contains(pc: int) {
      offset <= pc < End()
    }
  }

  datatype Region = Region(span: Span, kind: string, function_: int, name: string)

  datatype CodeSite = CodeSite(span: Span, kind: string)

  datatype SourceRange = SourceRange(span: Span, inlineParent: nat, function_: nat, wasmOffset: nat)

  /** Where an inlined body was called from. Frame k's number is k + 1; `parent` is a number, or 0 at the top. */
  datatype InlineFrame = InlineFrame(function_: nat, wasmOffset: nat, parent: nat)

  datatype Image = Image(id: UInt64, base: UInt64, size: UInt64, moduleID: string, artifactID: string,
                         regions: seq<Region>, unwind: seq<UnwindRange>, sources: seq<SourceRange>,
                         inlineFrames: seq<InlineFrame>, codeSites: seq<CodeSite>) {
    function End(): int {
      base + size
    }

    predicate Contains(pc: int) {
      base <= pc < End()
    }
  }

  /* ---------- Regions tile the image ---------- */

  function EndBefore(regions: seq<Region>, i: int): int
    requires 0 <= i <= |regions|
  {
    if i == 0 then 0 else regions[i - 1].span.End()
  }

  predicate Follows(regions: seq<Region>, i: int)
    requires 0 <= i < |regions|
  {
    regions[i].span.size != 0 && regions[i].span.offset == EndBefore(regions, i)
  }

  /** Nonempty regions, each starting where the one before ends, from zero to the image's size. */
  predicate Tiled(regions: seq<Region>, size: UInt64) {
    && (forall i :: 0 <= i < |regions| ==> Follows(regions, i))
    && EndBefore(regions, |regions|) == size
  }

  lemma {:induction false} TiledOrdered(regions: seq<Region>, size: UInt64, i: int, j: int)
    requires Tiled(regions, size) && 0 <= i < j < |regions|
    ensures regions[i].span.End() <= regions[j].span.offset
    decreases j
  {
    assert Follows(regions, j);
    if i < j - 1 { TiledOrdered(regions, size, i, j - 1); }
  }

  lemma TiledFits(regions: seq<Region>, size: UInt64, i: int)
    requires Tiled(regions, size) && 0 <= i < |regions|
    ensures regions[i].span.End() <= size
  {
    if i < |regions| - 1 { TiledOrdered(regions, size, i, |regions| - 1); }
  }

  method ValidateRegions(regions: seq<Region>, size: UInt64) returns (ok: bool)
    ensures ok <==> Tiled(regions, size)
  {
    var end: int := 0;
    for i := 0 to |regions|
      invariant end == EndBefore(regions, i) <= size
      invariant forall j :: 0 <= j < i ==> Follows(regions, j)
    {
      var r := regions[i].span;
      if r.size == 0 || r.offset != end || r.offset > size || r.size > size - r.offset {
        if Tiled(regions, size) {
          assert Follows(regions, i);
          TiledFits(regions, size, i);
          assert false;
        }
        return false;
      }
      end := r.offset + r.size;
    }
    ok := end == size;
  }

  function RegionEnds(regions: seq<Region>): seq<int> {
    seq(|regions|, i requires 0 <= i < |regions| => regions[i].span.End())
  }

  /** Exactly one region of a tiled image holds each of its offsets, and the search finds it. */
  method FindRegion(regions: seq<Region>, size: UInt64, offset: UInt64) returns (r: Region)
    requires Tiled(regions, size) && offset < size
    ensures r in regions && r.span.Contains(offset)
    ensures forall s :: s in regions && s.span.Contains(offset) ==> s == r
  {
    forall a, b | 0 <= a < b < |regions| ensures RegionEnds(regions)[a] <= RegionEnds(regions)[b] {
      TiledOrdered(regions, size, a, b);
    }
    var i := FirstAbove(RegionEnds(regions), offset);
    assert RegionEnds(regions)[|regions| - 1] == size;
    r := regions[i];
    assert Follows(regions, i);
    assert RegionEnds(regions)[i] > offset;
    assert i > 0 ==> RegionEnds(regions)[i - 1] <= offset;
    RegionUnique(regions, size, offset, r);
  }

  lemma RegionUnique(regions: seq<Region>, size: UInt64, offset: int, r: Region)
    requires Tiled(regions, size) && r in regions && r.span.Contains(offset)
    ensures forall s :: s in regions && s.span.Contains(offset) ==> s == r
  {
    var i :| 0 <= i < |regions| && regions[i] == r;
    forall s | s in regions && s.span.Contains(offset) ensures s == r {
      var j :| 0 <= j < |regions| && regions[j] == s;
      if i < j { TiledOrdered(regions, size, i, j); }
      if j < i { TiledOrdered(regions, size, j, i); }
    }
  }

  /* ---------- Sparse tables ---------- */

  predicate Sparse(spans: seq<Span>, size: UInt64) {
    && (forall i :: 0 <= i < |spans| ==> spans[i].size != 0 && spans[i].End() <= size)
    && (forall i :: 0 < i < |spans| ==> spans[i - 1].End() <= spans[i].offset)
  }

  lemma {:induction false} SparseOrdered(spans: seq<Span>, size: UInt64, i: int, j: int)
    requires Sparse(spans, size) && 0 <= i < j < |spans|
    ensures spans[i].End() <= spans[j].offset
    decreases j
  {
    if i < j - 1 { SparseOrdered(spans, size, i, j - 1); }
  }

  method ValidateSpans(spans: seq<Span>, size: UInt64) returns (ok: bool)
    ensures ok <==> Sparse(spans, size)
  {
    var end := 0;
    for i := 0 to |spans|
      invariant end == if i == 0 then 0 else spans[i - 1].End()
      invariant forall j :: 0 <= j < i ==> spans[j].size != 0 && spans[j].End() <= size
      invariant forall j :: 0 < j < i ==> spans[j - 1].End() <= spans[j].offset
    {
      var r := spans[i];
      if r.size == 0 || r.offset < end || r.offset > size || r.size > size - r.offset {
        return false;
      }
      end := r.offset + r.size;
    }
    ok := true;
  }

  function Offsets(spans: seq<Span>): seq<int> {
    seq(|spans|, i requires 0 <= i < |spans| => spans[i].offset)
  }

  /** The index of the span holding an offset; gaps hold nothing. */
  method LookupSpan(spans: seq<Span>, size: UInt64, offset: UInt64) returns (r: Option<nat>)
    requires Sparse(spans, size)
    ensures r.Some? ==> r.value < |spans| && spans[r.value].Contains(offset)
    ensures forall i :: 0 <= i < |spans| && spans[i].Contains(offset) ==> r == Some(i)
  {
    forall a, b | 0 <= a < b < |spans| ensures Offsets(spans)[a] <= Offsets(spans)[b] {
      SparseOrdered(spans, size, a, b);
    }
    var n := FirstAbove(Offsets(spans), offset);
    forall j | n <= j < |spans| ensures !spans[j].Contains(offset) {
      assert Offsets(spans)[j] > offset;
    }
    if n == 0 { return None; }
    assert Offsets(spans)[n - 1] <= offset;
    forall j | 0 <= j < n - 1 ensures !spans[j].Contains(offset) {
      SparseOrdered(spans, size, j, n - 1);
    }
    r := if offset - spans[n - 1].offset < spans[n - 1].size then Some(n - 1) else None;
  }

  function SiteSpans(sites: seq<CodeSite>): seq<Span> {
    seq(|sites|, i requires 0 <= i < |sites| => sites[i].span)
  }

  function SourceSpans(sources: seq<SourceRange>): seq<Span> {
    seq(|sources|, i requires 0 <= i < |sources| => sources[i].span)
  }

  predicate SitesValid(sites: seq<CodeSite>, size: UInt64) {
    Sparse(SiteSpans(sites), size) && forall i :: 0 <= i < |sites| ==> sites[i].kind != ""
  }

  /** The compiler site at an offset: the one containing it, if any. */
  ghost predicate SiteAt(sites: seq<CodeSite>, offset: int, r: Option<CodeSite>) {
    && (r.Some? ==> r.value in sites && r.value.span.Contains(offset))
    && (forall s :: s in sites && s.span.Contains(offset) ==> r == Some(s))
  }

  ghost predicate SourceAt(sources: seq<SourceRange>, offset: int, r: Option<SourceRange>) {
    && (r.Some? ==> r.value in sources && r.value.span.Contains(offset))
    && (forall s :: s in sources && s.span.Contains(offset) ==> r == Some(s))
  }

  method LookupCodeSite(sites: seq<CodeSite>, size: UInt64, offset: UInt64) returns (r: Option<CodeSite>)
    requires Sparse(SiteSpans(sites), size)
    ensures SiteAt(sites, offset, r)
  {
    var i := LookupSpan(SiteSpans(sites), size, offset);
    r := if i.Some? then Some(sites[i.value]) else None;
    forall s | s in sites && s.span.Contains(offset) ensures r == Some(s) {
      var j :| 0 <= j < |sites| && sites[j] == s;
      assert SiteSpans(sites)[j].Contains(offset);
    }
  }

  method LookupSource(sources: seq<SourceRange>, size: UInt64, offset: UInt64) returns (r: Option<SourceRange>)
    requires Sparse(SourceSpans(sources), size)
    ensures SourceAt(sources, offset, r)
  {
    var i := LookupSpan(SourceSpans(sources), size, offset);
    r := if i.Some? then Some(sources[i.value]) else None;
    forall s | s in sources && s.span.Contains(offset) ensures r == Some(s) {
      var j :| 0 <= j < |sources| && sources[j] == s;
      assert SourceSpans(sources)[j].Contains(offset);
    }
  }

  /* ---------- Sites stay within one executable owner ---------- */

  predicate Executable(r: Region) {
    r.kind != "padding" && r.kind != "literal-data"
  }

  predicate Attributable(r: Region) {
    Executable(r) && r.kind != "unknown"
  }

  predicate Owns(r: Region, s: CodeSite) {
    r.span.offset <= s.span.offset && s.span.End() <= r.span.End() && Attributable(r)
  }

  ghost predicate Owned(sites: seq<CodeSite>, regions: seq<Region>) {
    forall s :: s in sites ==> exists r :: r in regions && Owns(r, s)
  }

  /** One pass over both tables decides whether every site has an owner. */
  method ValidateCodeSiteRegions(sites: seq<CodeSite>, regions: seq<Region>, size: UInt64) returns (ok: bool)
    requires Tiled(regions, size) && Sparse(SiteSpans(sites), size)
    ensures ok <==> Owned(sites, regions)
  {
    var at := 0;
    for i := 0 to |sites|
      invariant 0 <= at <= |regions|
      invariant forall s :: s in sites[..i] ==> exists r :: r in regions && Owns(r, s)
      invariant i < |sites| ==> forall k :: 0 <= k < at ==> regions[k].span.End() <= sites[i].span.offset
    {
      var site := sites[i];
      while at < |regions| && regions[at].span.End() <= site.span.offset
        invariant 0 <= at <= |regions|
        invariant forall k :: 0 <= k < at ==> regions[k].span.End() <= site.span.offset
      {
        at := at + 1;
      }
      assert SiteSpans(sites)[i].size != 0;
      var crosses := true;
      if at < |regions| {
        var r := regions[at];
        crosses := site.span.offset < r.span.offset || site.span.size > r.span.size - (site.span.offset - r.span.offset)
                   || r.kind == "padding" || r.kind == "literal-data" || r.kind == "unknown";
      }
      if crosses {
        forall r | r in regions ensures !Owns(r, site) {
          OnlyOwner(regions, size, site, at, r);
        }
        assert site in sites;
        return false;
      }
      assert Owns(regions[at], site);
      assert sites[..i + 1] == sites[..i] + [site];
      if i + 1 < |sites| {
        assert SiteSpans(sites)[i].End() <= SiteSpans(sites)[i + 1].offset;
      }
    }
    assert sites[..|sites|] == sites;
    ok := true;
  }

  lemma OnlyOwner(regions: seq<Region>, size: UInt64, site: CodeSite, at: int, r: Region)
    requires Tiled(regions, size) && 0 <= at <= |regions| && site.span.size != 0 && r in regions
    requires forall k :: 0 <= k < at ==> regions[k].span.End() <= site.span.offset
    requires at < |regions| ==> regions[at].span.End() > site.span.offset && !Owns(regions[at], site)
    ensures !Owns(r, site)
  {
    var j :| 0 <= j < |regions| && regions[j] == r;
    if at < j { TiledOrdered(regions, size, at, j); }
  }

  /* ---------- Inline ancestry ---------- */

  predicate InlineValid(sources: seq<SourceRange>, frames: seq<InlineFrame>) {
    && (forall i :: 0 <= i < |frames| ==> frames[i].parent <= i)
    && (forall i :: 0 <= i < |sources| ==> sources[i].inlineParent <= |frames|)
  }

  method ValidateInlineSources(sources: seq<SourceRange>, frames: seq<InlineFrame>) returns (ok: bool)
    ensures ok <==> InlineValid(sources, frames)
  {
    for i := 0 to |frames|
      invariant forall j :: 0 <= j < i ==> frames[j].parent <= j
    {
      if frames[i].parent > i { return false; }
    }
    for i := 0 to |sources|
      invariant forall j :: 0 <= j < i ==> sources[j].inlineParent <= |frames|
    {
      if sources[i].inlineParent > |frames| { return false; }
    }
    ok := true;
  }

  /** A line of callers: the frame numbered `parent` first, each frame the parent of the one before, up to one without. */
  ghost predicate IsAncestry(frames: seq<InlineFrame>, parent: nat, line: seq<InlineFrame>) {
    if parent == 0 then line == []
    else
      && line != [] && parent <= |frames| && line[0] == frames[parent - 1] && line[|line| - 1].parent == 0
      && forall i :: 0 <= i < |line| - 1 ==> 0 < line[i].parent <= |frames| && line[i + 1] == frames[line[i].parent - 1]
  }

  /** The chain of parents from `parent` to the root; parents precede their children. */
  function Ancestry(frames: seq<InlineFrame>, parent: nat): (r: seq<InlineFrame>)
    requires parent <= |frames| && forall i :: 0 <= i < |frames| ==> frames[i].parent <= i
    ensures |r| <= parent && IsAncestry(frames, parent, r)
    decreases parent
  {
    if parent == 0 then [] else [frames[parent - 1]] + Ancestry(frames, frames[parent - 1].parent)
  }

  /** A table has one line of callers from each frame. */
  lemma {:induction false} OneAncestry(frames: seq<InlineFrame>, parent: nat, line: seq<InlineFrame>)
    requires parent <= |frames| && forall i :: 0 <= i < |frames| ==> frames[i].parent <= i
    requires IsAncestry(frames, parent, line)
    ensures line == Ancestry(frames, parent)
    decreases parent
  {
    if parent != 0 {
      var next := frames[parent - 1].parent;
      assert IsAncestry(frames, next, line[1..]) by {
        if next != 0 { assert |line| > 1 && line[1] == frames[next - 1]; }
      }
      OneAncestry(frames, next, line[1..]);
      assert line == [line[0]] + line[1..];
    }
  }

  /** The first frames of a line of callers, `parent` being the next. */
  ghost predicate Climbed(frames: seq<InlineFrame>, start: nat, line: seq<InlineFrame>, parent: nat) {
    && line != [] && 0 < start <= |frames| && line[0] == frames[start - 1] && line[|line| - 1].parent == parent
    && forall i :: 0 <= i < |line| - 1 ==> 0 < line[i].parent <= |frames| && line[i + 1] == frames[line[i].parent - 1]
  }

  lemma ClimbStep(frames: seq<InlineFrame>, start: nat, line: seq<InlineFrame>, parent: nat)
    requires 0 < parent <= |frames| && if line == [] then parent == start else Climbed(frames, start, line, parent)
    ensures Climbed(frames, start, line + [frames[parent - 1]], frames[parent - 1].parent)
  {
    var longer := line + [frames[parent - 1]];
    assert longer[0] == if line == [] then frames[parent - 1] else line[0];
    forall i | 0 <= i < |longer| - 1
      ensures 0 < longer[i].parent <= |frames| && longer[i + 1] == frames[longer[i].parent - 1]
    {
      assert longer[i] == line[i];
      if i + 1 < |line| { assert longer[i + 1] == line[i + 1]; }
    }
  }

  lemma ClimbedToRoot(frames: seq<InlineFrame>, start: nat, line: seq<InlineFrame>)
    requires Climbed(frames, start, line, 0)
    ensures IsAncestry(frames, start, line)
  {
  }

  /** On a validated table no guard fires, so the whole ancestry is returned; on no table is it returned in part. */
  method InlineCallers(frames: seq<InlineFrame>, start: nat) returns (out: seq<InlineFrame>)
    ensures out == [] || IsAncestry(frames, start, out)
    ensures start <= |frames| && (forall i :: 0 <= i < |frames| ==> frames[i].parent <= i) ==> out == Ancestry(frames, start)
  {
    hide Climbed, Ancestry;
    out := [];
    var parent: nat := start;
    ghost var valid := start <= |frames| && forall i :: 0 <= i < |frames| ==> frames[i].parent <= i;
    while parent != 0
      invariant valid ==> parent <= |frames|
      invariant if out == [] then parent == start else Climbed(frames, start, out, parent)
      decreases parent
    {
      if parent > |frames| { return []; }
      var frame := frames[parent - 1];
      if frame.parent >= parent { return []; }
      ClimbStep(frames, start, out, parent);
      out := out + [frame];
      parent := frame.parent;
    }
    if out != [] { ClimbedToRoot(frames, start, out); }
    if valid { OneAncestry(frames, start, out); }
  }

  /* ---------- Whole images ---------- */

  ghost predicate ImageValid(im: Image) {
    && Tiled(im.regions, im.size) && DirectoryValid(im.unwind, im.size)
    && Sparse(SourceSpans(im.sources), im.size) && SitesValid(im.codeSites, im.size)
    && Owned(im.codeSites, im.regions) && InlineValid(im.sources, im.inlineFrames)
  }

  method ValidateCodeSites(sites: seq<CodeSite>, size: UInt64) returns (ok: bool)
    ensures ok <==> SitesValid(sites, size)
  {
    for i := 0 to |sites|
      invariant forall j :: 0 <= j < i ==> sites[j].kind != ""
    {
      if sites[i].kind == "" { return false; }
    }
    ok := ValidateSpans(SiteSpans(sites), size);
  }

  method ValidateImage(im: Image) returns (ok: bool)
    ensures ok <==> ImageValid(im)
  {
    ok := ValidateRegions(im.regions, im.size);
    if !ok { return; }
    ok := ValidateUnwind(im.unwind, im.size);
    if !ok { return; }
    ok := ValidateSpans(SourceSpans(im.sources), im.size);
    if !ok { return; }
    ok := ValidateCodeSites(im.codeSites, im.size);
    if !ok { return; }
    ok := ValidateCodeSiteRegions(im.codeSites, im.regions, im.size);
    if !ok { return; }
    ok := ValidateInlineSources(im.sources, im.inlineFrames);
  }
}
