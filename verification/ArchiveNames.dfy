/**
 Archive entry names as text (internal/sourcearchive/archive.go): splitting at slashes, the portable
 component rules, and the lower-case spelling under which names are compared. A name is a string of
 bytes.
 */
module ArchiveNames {
  import opened Options

  datatype NameLimits = NameLimits(pathBytes: int, pathDepth: int, componentBytes: int)

  /* ---------- Components ---------- */

  /** Where `c` first occurs, or the end. */
  function IndexOf(s: string, c: char): (k: nat)
    ensures k <= |s| && (k < |s| ==> s[k] == c)
    ensures forall i :: 0 <= i < k ==> s[i] != c
  {
    if s == "" || s[0] == c then 0
    else
      var k := IndexOf(s[1..], c);
      assert forall i :: 0 < i <= k ==> s[i] == s[1..][i - 1];
      k + 1
  }

  lemma IndexIs(s: string, c: char, k: nat)
    requires k <= |s| && (k < |s| ==> s[k] == c) && forall i :: 0 <= i < k ==> s[i] != c
    ensures IndexOf(s, c) == k
  {
  }

  /** The text between the slashes. */
  function Components(s: string): (cs: seq<string>)
    ensures cs != []
    decreases |s|
  {
    var k := IndexOf(s, '/');
    if k == |s| then [s] else [s[..k]] + Components(s[k + 1..])
  }

  function Joined(cs: seq<string>): string
    requires cs != []
  {
    if |cs| == 1 then cs[0] else cs[0] + "/" + Joined(cs[1..])
  }

  /** Components have no slash, and joining them gives the name back. */
  lemma {:induction false} ComponentsJoin(s: string)
    ensures Joined(Components(s)) == s
    ensures forall c :: c in Components(s) ==> '/' !in c
    decreases |s|
  {
    var k := IndexOf(s, '/');
    if k < |s| {
      ComponentsJoin(s[k + 1..]);
      assert Components(s)[1..] == Components(s[k + 1..]);
      assert s == s[..k] + "/" + s[k + 1..];
    }
  }

  lemma ComponentsCons(c: string, rest: string)
    requires '/' !in c
    ensures Components(c) == [c]
    ensures Components(c + "/" + rest) == [c] + Components(rest)
  {
    var s := c + "/" + rest;
    IndexIs(c, '/', |c|);
    IndexIs(s, '/', |c|);
    assert s[..|c|] == c && s[|c| + 1..] == rest;
  }

  /** Only one list of slash-free components joins to a given name. */
  lemma {:induction false} ComponentsOfJoined(cs: seq<string>)
    requires cs != [] && forall c :: c in cs ==> '/' !in c
    ensures Components(Joined(cs)) == cs
  {
    hide Components;
    assert cs[0] in cs;
    if |cs| == 1 {
      ComponentsCons(cs[0], "");
    } else {
      ComponentsOfJoined(cs[1..]);
      ComponentsCons(cs[0], Joined(cs[1..]));
      assert cs == [cs[0]] + cs[1..];
    }
  }

  /* ---------- Lower case ---------- */

  function LowerChar(c: char): char {
    if 'A' <= c <= 'Z' then c - 'A' + 'a' else c
  }

  function Lower(s: string): (r: string)
    ensures |r| == |s| && forall i :: 0 <= i < |s| ==> r[i] == LowerChar(s[i])
  {
    seq(|s|, i requires 0 <= i < |s| => LowerChar(s[i]))
  }

  lemma LowerKeepsSlash(s: string)
    ensures IndexOf(Lower(s), '/') == IndexOf(s, '/')
  {
    assert forall i :: 0 <= i < |s| ==> (Lower(s)[i] == '/' <==> s[i] == '/');
    IndexIs(Lower(s), '/', IndexOf(s, '/'));
  }

  /** The canonical spelling has its component boundaries where the name has them. */
  lemma {:induction false} LowerComponents(s: string)
    ensures |Components(Lower(s))| == |Components(s)|
    ensures forall k :: 0 <= k < |Components(s)| ==> Components(Lower(s))[k] == Lower(Components(s)[k])
    decreases |s|
  {
    LowerKeepsSlash(s);
    var k := IndexOf(s, '/');
    if k < |s| {
      LowerComponents(s[k + 1..]);
      assert Lower(s)[k + 1..] == Lower(s[k + 1..]);
      assert Lower(s)[..k] == Lower(s[..k]);
    }
  }

  /** The canonical spelling: the name itself where it has no capitals. */
  method CanonicalPortablePath(path: string) returns (canonical: string)
    ensures canonical == Lower(path)
  {
    var firstUpper := 0;
    while firstUpper < |path| && !('A' <= path[firstUpper] <= 'Z')
      invariant firstUpper <= |path| && forall i :: 0 <= i < firstUpper ==> LowerChar(path[i]) == path[i]
    {
      firstUpper := firstUpper + 1;
    }
    if firstUpper == |path| { return path; }
    canonical := path[..firstUpper];
    for i := firstUpper to |path|
      invariant |canonical| == i && forall j :: 0 <= j < i ==> canonical[j] == LowerChar(path[j])
    {
      var c := path[i];
      if 'A' <= c && c <= 'Z' { c := c + ('a' - 'A'); }
      canonical := canonical + [c];
    }
  }

  /* ---------- Portable components ---------- */

  function UpperChar(c: char): char {
    if 'a' <= c <= 'z' then c - 'a' + 'A' else c
  }

  function Upper(s: string): (r: string)
    ensures |r| == |s| && forall i :: 0 <= i < |s| ==> r[i] == UpperChar(s[i])
  {
    seq(|s|, i requires 0 <= i < |s| => UpperChar(s[i]))
  }

  predicate PortableChar(c: char) {
    0x20 <= c as int <= 0x7e && c !in "<>:\"|?*"
  }

  /** A device name, in any case. */
  predicate Reserved(base: string) {
    || Upper(base) in ["CON", "PRN", "AUX", "NUL", "CONIN$", "CONOUT$"]
    || (|base| == 4 && '1' <= base[3] <= '9' && Upper(base[..3]) in ["COM", "LPT"])
  }

  function Trimmed(s: string): (r: string)
    ensures r <= s && (r != "" ==> r[|r| - 1] != ' ') && forall i :: |r| <= i < |s| ==> s[i] == ' '
  {
    if s == "" || s[|s| - 1] != ' ' then s else Trimmed(s[..|s| - 1])
  }

  /** Usable as a file name everywhere: printable, not ending in a dot or space, and no device name. */
  predicate Portable(c: string)
    requires c != ""
  {
    && c[|c| - 1] != '.' && c[|c| - 1] != ' '
    && (forall i :: 0 <= i < |c| ==> PortableChar(c[i]))
    && !Reserved(Trimmed(c[..IndexOf(c, '.')]))
  }

  method EqualFoldASCII(left: string, right: string) returns (equal: bool)
    ensures equal <==> Upper(left) == right
  {
    if |left| != |right| { return false; }
    for i := 0 to |left|
      invariant forall j :: 0 <= j < i ==> UpperChar(left[j]) == right[j]
    {
      var c := left[i];
      if 'a' <= c && c <= 'z' { c := c - ('a' - 'A'); }
      if c != right[i] {
        assert Upper(left)[i] != right[i];
        return false;
      }
    }
    equal := true;
  }

  method DeviceName(base: string) returns (reserved: bool)
    ensures reserved <==> Reserved(base)
  {
    var con := EqualFoldASCII(base, "CON");
    var prn := EqualFoldASCII(base, "PRN");
    var aux := EqualFoldASCII(base, "AUX");
    var nul := EqualFoldASCII(base, "NUL");
    if |base| == 3 && (con || prn || aux || nul) { return true; }
    if |base| == 4 && '1' <= base[3] <= '9' {
      var com := EqualFoldASCII(base[..3], "COM");
      var lpt := EqualFoldASCII(base[..3], "LPT");
      if com || lpt { return true; }
    }
    var input := EqualFoldASCII(base, "CONIN$");
    var output := EqualFoldASCII(base, "CONOUT$");
    reserved := input || output;
  }

  method PortablePathComponent(c: string) returns (portable: bool)
    requires c != ""
    ensures portable <==> Portable(c)
  {
    if c == "." || c == ".." || c[|c| - 1] == '.' || c[|c| - 1] == ' ' { return false; }
    for i := 0 to |c|
      invariant forall j :: 0 <= j < i ==> PortableChar(c[j])
    {
      if c[i] in "<>:\"|?*" || c[i] as int < 0x20 || c[i] as int > 0x7e { return false; }
    }
    var base := c[..IndexOf(c, '.')];
    ghost var whole := base;
    while |base| > 0 && base[|base| - 1] == ' '
      invariant Trimmed(base) == Trimmed(whole)
    {
      base := base[..|base| - 1];
    }
    var reserved := DeviceName(base);
    portable := !reserved;
  }

  /* ---------- Whole names ---------- */

  /** The name without a final slash. */
  function NameOf(raw: string): string {
    if raw != "" && raw[|raw| - 1] == '/' then raw[..|raw| - 1] else raw
  }

  predicate ComponentOk(c: string, l: NameLimits) {
    && c != "" && c != "." && c != ".." && |c| <= l.componentBytes && Portable(c)
    && forall i :: 0 <= i < |c| ==> c[i] != '\0' && c[i] != '\\'
  }

  predicate NameOk(raw: string, l: NameLimits) {
    var cs := Components(NameOf(raw));
    && raw != "" && |NameOf(raw)| <= l.pathBytes && |cs| <= l.pathDepth + 1
    && forall k :: 0 <= k < |cs| ==> ComponentOk(cs[k], l)
  }

  datatype ValidatedPath = ValidatedPath(name: string, root: string, relative: string)

  /** The validated path of a name: its first component, and the others below it. */
  predicate PathOf(v: ValidatedPath, raw: string) {
    var cs := Components(NameOf(raw));
    && v.name == NameOf(raw) && v.root == cs[0]
    && if |cs| == 1 then v.relative == "" else Components(v.relative) == cs[1..] && v.relative != ""
  }

  lemma ComponentsAt(s: string, start: nat, index: nat)
    requires start <= index <= |s| && (index < |s| ==> s[index] == '/') && forall i :: start <= i < index ==> s[i] != '/'
    ensures Components(s[start..]) ==
            if index == |s| then [s[start..index]] else [s[start..index]] + Components(s[index + 1..])
  {
    var tail := s[start..];
    assert forall i :: 0 <= i < index - start ==> tail[i] == s[start + i];
    assert index < |s| ==> tail[index - start] == '/';
    IndexIs(tail, '/', index - start);
    assert tail[..index - start] == s[start..index];
    assert index == |s| ==> tail == s[start..index];
    if index < |s| { assert tail[index - start + 1..] == s[index + 1..]; }
  }

  lemma SingleComponent(s: string)
    ensures |Components(s)| == 1 ==> Components(s)[0] == s
  {
  }

  method CheckComponent(c: string, l: NameLimits) returns (good: bool)
    requires forall i :: 0 <= i < |c| ==> c[i] != '\0' && c[i] != '\\'
    ensures good <==> ComponentOk(c, l)
  {
    if c == "" || c == "." || c == ".." || |c| > l.componentBytes { return false; }
    good := PortablePathComponent(c);
  }

  /** Accepts exactly the valid names, and splits off their root. */
  method ValidateArchivePath(raw: string, l: NameLimits) returns (r: Option<ValidatedPath>)
    ensures r.Some? <==> NameOk(raw, l)
    ensures r.Some? ==> PathOf(r.value, raw)
  {
    hide Components, ComponentOk, IndexOf;
    if raw == "" { return None; }
    var name := raw;
    if name[|name| - 1] == '/' { name := name[..|name| - 1]; }
    if |name| > l.pathBytes { return None; }
    var componentStart, components, rootEnd := 0, 0, -1;
    ghost var cs := Components(name);
    assert name[0..] == name;
    for index := 0 to |name| + 1
      invariant 0 <= componentStart <= index
      invariant componentStart == |name| + 1 <==> components == |cs|
      invariant 0 <= components <= |cs|
      invariant componentStart <= |name| ==> Components(name[componentStart..]) == cs[components..]
      invariant index == |name| + 1 ==> componentStart == index
      invariant forall i :: componentStart <= i < index ==> name[i] != '/' && name[i] != '\0' && name[i] != '\\'
      invariant forall k :: 0 <= k < components ==> ComponentOk(cs[k], l)
      invariant components == 0 || components <= l.pathDepth + 1
      invariant components == 0 <==> componentStart == 0
      invariant rootEnd < 0 <==> components == 0 || |cs| == 1
      invariant rootEnd >= 0 ==> RootSplit(name, cs, rootEnd)
    {
      if index != |name| {
        if name[index] == '\0' || name[index] == '\\' {
          BadByte(name, componentStart, index, cs, components, l);
          return None;
        }
        if name[index] != '/' { continue; }
      }
      ComponentsAt(name, componentStart, index);
      var component := name[componentStart..index];
      assert component == cs[components];
      var good := CheckComponent(component, l);
      if !good { return None; }
      components := components + 1;
      if components > l.pathDepth + 1 { return None; }
      if rootEnd < 0 && index < |name| { rootEnd := index; }
      componentStart := index + 1;
    }
    SingleComponent(name);
    if rootEnd < 0 { return Some(ValidatedPath(name, name, "")); }
    RelativeNonempty(name, cs, rootEnd, l);
    r := Some(ValidatedPath(name, name[..rootEnd], name[rootEnd + 1..]));
  }

  ghost predicate RootSplit(name: string, cs: seq<string>, rootEnd: int) {
    && 0 <= rootEnd < |name| && |cs| > 1 && name[..rootEnd] == cs[0]
    && Components(name[rootEnd + 1..]) == cs[1..]
  }

  lemma RelativeNonempty(name: string, cs: seq<string>, rootEnd: int, l: NameLimits)
    requires RootSplit(name, cs, rootEnd) && ComponentOk(cs[1], l)
    ensures name[rootEnd + 1..] != ""
  {
    assert Components("") == [""];
    assert cs[1..][0] == cs[1];
  }

  /** A forbidden byte makes the component it stands in invalid. */
  lemma BadByte(name: string, start: nat, index: nat, cs: seq<string>, k: nat, l: NameLimits)
    requires start <= index < |name| && (name[index] == '\0' || name[index] == '\\')
    requires forall i :: start <= i < index ==> name[i] != '/'
    requires k < |cs| && Components(name[start..]) == cs[k..]
    ensures !ComponentOk(cs[k], l)
  {
    var end := index + IndexOf(name[index..], '/');
    assert forall i :: index <= i < end ==> name[i] == name[index..][i - index];
    assert end < |name| ==> name[end] == name[index..][end - index];
    ComponentsAt(name, start, end);
    assert cs[k] == cs[k..][0] == name[start..end];
    assert cs[k][index - start] == name[index];
  }
}
