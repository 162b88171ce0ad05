/**
 The text key that groups samples into report rows (profile/samples.go), and exactly when two
 row identities share one.
 */
module RowKeys {

  datatype Identity = Identity(moduleID: string, artifactID: string, function_: int, kind: string, regionOffset: nat)

  function Digit(d: nat): char
    requires d < 10
  {
    ['0', '1', '2', '3', '4', '5', '6', '7', '8', '9'][d]
  }

  function Natural(n: nat): (r: string)
    ensures |r| >= 1 && '/' !in r && '-' !in r
  {
    if n < 10 then [Digit(n)] else Natural(n / 10) + [Digit(n % 10)]
  }

  function Decimal(n: int): (r: string)
    ensures |r| >= 1 && '/' !in r
    ensures n < 0 <==> r[0] == '-'
  {
    if n < 0 then "-" + Natural(-n) else Natural(n)
  }

  function Key(i: Identity): string {
    i.moduleID + "/" + i.artifactID + "/" + Decimal(i.function_) + "/" + i.kind + "/" + Decimal(i.regionOffset)
  }

  lemma DigitInjective(a: nat, b: nat)
    requires a < 10 && b < 10 && Digit(a) == Digit(b)
    ensures a == b
  {
  }

  lemma {:induction false} NaturalInjective(a: nat, b: nat)
    requires Natural(a) == Natural(b)
    ensures a == b
    decreases a
  {
    var x, y := Natural(a), Natural(b);
    assert x[|x| - 1] == Digit(a % 10) && y[|y| - 1] == Digit(b % 10);
    DigitInjective(a % 10, b % 10);
    if a >= 10 && b >= 10 {
      assert x[..|x| - 1] == Natural(a / 10) && y[..|y| - 1] == Natural(b / 10);
      NaturalInjective(a / 10, b / 10);
    }
  }

  lemma DecimalInjective(a: int, b: int)
    requires Decimal(a) == Decimal(b)
    ensures a == b
  {
    if a < 0 && b < 0 {
      assert Natural(-a) == Decimal(a)[1..] && Natural(-b) == Decimal(b)[1..];
      NaturalInjective(-a, -b);
    } else {
      NaturalInjective(a, b);
    }
  }

  /** The last separator of a text is the one before its final separator-free part. */
  lemma SplitLast(s: string, t: string, u: string, v: string)
    requires s + "/" + t == u + "/" + v && '/' !in t && '/' !in v
    ensures s == u && t == v
  {
    var whole := s + "/" + t;
    AfterSeparator(s, t);
    AfterSeparator(u, v);
    assert whole[|s|] == '/' && whole[|u|] == '/';
    assert |s| == |u|;
    assert s == whole[..|s|] && u == whole[..|u|];
    assert t == whole[|s| + 1..] && v == whole[|u| + 1..];
  }

  lemma AfterSeparator(s: string, t: string)
    requires '/' !in t
    ensures forall k :: |s| < k < |s + "/" + t| ==> (s + "/" + t)[k] != '/'
  {
    forall k | |s| < k < |s + "/" + t| ensures (s + "/" + t)[k] != '/' {
      assert (s + "/" + t)[k] == t[k - |s| - 1];
    }
  }

  /** The IDs as they are joined. */
  function Ids(i: Identity): string {
    i.moduleID + "/" + i.artifactID + "/"
  }

  /** What follows the IDs, up to the region offset. */
  function Rest(i: Identity): string {
    Decimal(i.function_) + "/" + i.kind
  }

  /** The end of `b.kind` reads like the function and kind of `a`, and its start like the end of a's IDs. */
  predicate Absorbs(b: Identity, a: Identity) {
    && |Rest(a)| <= |b.kind|
    && var n := |b.kind| - |Rest(a)|;
       b.kind[n..] == Rest(a) && Ids(a) == Ids(b) + Decimal(b.function_) + "/" + b.kind[..n]
  }

  /** Same fields, but for where the two IDs are joined. */
  predicate SameRow(a: Identity, b: Identity) {
    Ids(a) == Ids(b) && a.function_ == b.function_ && a.kind == b.kind
  }

  lemma KeyParts(i: Identity)
    ensures Key(i) == (Ids(i) + Rest(i)) + "/" + Decimal(i.regionOffset)
  {
    assert i.moduleID + "/" + i.artifactID + "/" + Decimal(i.function_) + "/" + i.kind == Ids(i) + Rest(i);
  }

  /** The first separator of a text is the one after its initial separator-free part. */
  lemma SplitFirst(s: string, t: string, u: string, v: string)
    requires s + "/" + t == u + "/" + v && '/' !in s && '/' !in u
    ensures s == u && t == v
  {
    var whole := s + "/" + t;
    assert whole[|s|] == '/' && whole[|u|] == '/';
    assert forall k :: 0 <= k < |s| ==> whole[k] == s[k];
    assert forall k :: 0 <= k < |u| ==> whole[k] == u[k];
    assert s == whole[..|s|] && u == whole[..|u|];
    assert t == whole[|s| + 1..] && v == whole[|u| + 1..];
  }

  lemma Overlap(x: string, r: string, y: string, s: string)
    requires x + r == y + s && |r| <= |s|
    ensures var n := |s| - |r|; x == y + s[..n] && s[n..] == r
  {
    var n := |s| - |r|;
    var whole := x + r;
    assert x == whole[..|x|] && r == whole[|x|..];
    assert s == whole[|y|..] && y == whole[..|y|];
    assert whole[..|x|] == whole[..|y|] + whole[|y|..|x|];
  }

  /** A separator that ends a part of d/k lies after d. */
  lemma SeparatorAfter(d: string, k: string, m: nat)
    requires '/' !in d && 0 < m <= |d + "/" + k| && (d + "/" + k)[m - 1] == '/'
    ensures |d| < m
    ensures var n := m - |d| - 1; (d + "/" + k)[..m] == d + "/" + k[..n] && (d + "/" + k)[m..] == k[n..]
  {
    assert forall i :: 0 <= i < |d| ==> (d + "/" + k)[i] == d[i];
  }

  /** Texts that agree with a shorter rest on one side: the longer kind absorbs the difference. */
  lemma ShorterRest(a: Identity, b: Identity)
    requires Ids(a) + Rest(a) == Ids(b) + Rest(b) && |Rest(a)| < |Rest(b)|
    ensures Absorbs(b, a)
  {
    hide Decimal;
    var m, d := |Rest(b)| - |Rest(a)|, Decimal(b.function_);
    Overlap(Ids(a), Rest(a), Ids(b), Rest(b));
    assert Ids(a)[|Ids(a)| - 1] == '/';
    SeparatorAfter(d, b.kind, m);
    assert Ids(b) + (d + "/" + b.kind[..m - |d| - 1]) == Ids(b) + d + "/" + b.kind[..m - |d| - 1];
  }

  lemma AbsorbedText(b: Identity, a: Identity)
    requires Absorbs(b, a)
    ensures Ids(a) + Rest(a) == Ids(b) + Rest(b)
  {
    var n := |b.kind| - |Rest(a)|;
    assert b.kind == b.kind[..n] + b.kind[n..];
    calc {
      Ids(a) + Rest(a);
      Ids(b) + Decimal(b.function_) + "/" + b.kind[..n] + b.kind[n..];
      Ids(b) + (Decimal(b.function_) + "/" + (b.kind[..n] + b.kind[n..]));
    }
  }

  /** Exactly when two identities share a key, for all texts. */
  lemma KeysAgree(a: Identity, b: Identity)
    ensures Key(a) == Key(b) <==>
            a.regionOffset == b.regionOffset && (SameRow(a, b) || Absorbs(a, b) || Absorbs(b, a))
  {
    hide Absorbs, Decimal;
    KeyParts(a);
    KeyParts(b);
    if Key(a) == Key(b) {
      SplitLast(Ids(a) + Rest(a), Decimal(a.regionOffset), Ids(b) + Rest(b), Decimal(b.regionOffset));
      DecimalInjective(a.regionOffset, b.regionOffset);
      if |Rest(a)| < |Rest(b)| {
        ShorterRest(a, b);
      } else if |Rest(b)| < |Rest(a)| {
        ShorterRest(b, a);
      } else {
        var whole := Ids(a) + Rest(a);
        assert Ids(a) == whole[..|Ids(a)|] && Ids(b) == whole[..|Ids(b)|];
        assert Rest(a) == whole[|Ids(a)|..] && Rest(b) == whole[|Ids(b)|..];
        SplitFirst(Decimal(a.function_), a.kind, Decimal(b.function_), b.kind);
        DecimalInjective(a.function_, b.function_);
      }
    }
    if Absorbs(a, b) { AbsorbedText(a, b); }
    if Absorbs(b, a) { AbsorbedText(b, a); }
  }

  lemma PlainKindAbsorbsNothing(b: Identity, a: Identity)
    requires '/' !in b.kind
    ensures !Absorbs(b, a)
  {
    if |Rest(a)| <= |b.kind| {
      var n := |b.kind| - |Rest(a)|;
      assert Rest(a)[|Decimal(a.function_)|] == '/';
      assert b.kind[n + |Decimal(a.function_)|] == b.kind[n..][|Decimal(a.function_)|];
    }
  }

  /** With separator-free artifact IDs and kinds, a key names one identity. */
  lemma KeyInjective(a: Identity, b: Identity)
    requires '/' !in a.kind && '/' !in b.kind && '/' !in a.artifactID && '/' !in b.artifactID
    ensures Key(a) == Key(b) <==> a == b
  {
    KeysAgree(a, b);
    PlainKindAbsorbsNothing(a, b);
    PlainKindAbsorbsNothing(b, a);
    if Key(a) == Key(b) {
      assert a.moduleID + "/" + a.artifactID == Ids(a)[..|Ids(a)| - 1];
      assert b.moduleID + "/" + b.artifactID == Ids(b)[..|Ids(b)| - 1];
      SplitLast(a.moduleID, a.artifactID, b.moduleID, b.artifactID);
    }
  }

  /** Without that, moving a separator from one ID to the other keeps the key: distinct rows merge. */
  lemma KeyCollision(m: string, x: string, y: string, function_: int, kind: string, offset: nat)
    ensures Key(Identity(m + "/" + x, y, function_, kind, offset)) == Key(Identity(m, x + "/" + y, function_, kind, offset))
    ensures Identity(m + "/" + x, y, function_, kind, offset) != Identity(m, x + "/" + y, function_, kind, offset)
  {
    assert (m + "/" + x) + "/" + y == m + "/" + (x + "/" + y);
    assert |m + "/" + x| != |m|;
  }
}
