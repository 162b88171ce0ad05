/**
 The record walk of UnwindInfo.validate (profile/unwind.go): framing only, not rule correctness.
 The framing is stated on the list of record offsets, which the section determines.
 */
module UnwindFraming {
  import opened Bytes

  const MAX_UINT32 := 0xffff_ffff

  /** A record starts here: a 32-bit length, at least its link field, and all within the section. */
  predicate RecordAt(frame: seq<Byte>, off: nat) {
    && off + 8 <= |frame|
    && 4 <= U32(frame, off) < MAX_UINT32 && off + 4 + U32(frame, off) <= |frame|
  }

  function EndOf(frame: seq<Byte>, off: nat): nat
    requires RecordAt(frame, off)
  {
    off + 4 + U32(frame, off)
  }

  /** The second word of a record: zero in a CIE, the distance back to the CIE in an FDE. */
  function LinkOf(frame: seq<Byte>, off: nat): nat
    requires RecordAt(frame, off)
  {
    U32(frame, off + 4)
  }

  /** Records end to end from the start of the section. */
  ghost predicate Tiling(frame: seq<Byte>, offs: seq<nat>) {
    && (forall i :: 0 <= i < |offs| ==> RecordAt(frame, offs[i]))
    && (offs != [] ==> offs[0] == 0)
    && (forall i :: 0 < i < |offs| ==> offs[i] == EndOf(frame, offs[i - 1]))
  }

  function Stop(frame: seq<Byte>, offs: seq<nat>): nat
    requires offs != [] ==> RecordAt(frame, offs[|offs| - 1])
  {
    if offs == [] then 0 else EndOf(frame, offs[|offs| - 1])
  }

  /** The section ends here, or with a zero length and nothing but zeros. */
  ghost predicate Ended(frame: seq<Byte>, off: nat) {
    off == |frame| || (off + 4 <= |frame| && forall i :: off <= i < |frame| ==> frame[i] == 0)
  }

  /** The FDE in position `i` points back to a CIE in an earlier one. */
  ghost predicate LinksBack(frame: seq<Byte>, offs: seq<nat>, i: int)
    requires 0 <= i < |offs| && forall k :: 0 <= k < |offs| ==> RecordAt(frame, offs[k])
  {
    exists j :: 0 <= j < i && LinkOf(frame, offs[j]) == 0 && offs[j] == offs[i] + 4 - LinkOf(frame, offs[i])
  }

  ghost predicate Linked(frame: seq<Byte>, offs: seq<nat>)
    requires Tiling(frame, offs)
  {
    forall i :: 0 <= i < |offs| && LinkOf(frame, offs[i]) != 0 ==> LinksBack(frame, offs, i)
  }

  ghost predicate HasFde(frame: seq<Byte>, offs: seq<nat>)
    requires Tiling(frame, offs)
  {
    exists i :: 0 <= i < |offs| && LinkOf(frame, offs[i]) != 0
  }

  /** The records tile the section up to its end or terminator, every FDE has its CIE, and there is one. */
  ghost predicate Framing(frame: seq<Byte>, offs: seq<nat>) {
    Tiling(frame, offs) && Ended(frame, Stop(frame, offs)) && Linked(frame, offs) && HasFde(frame, offs)
  }

  ghost predicate HeaderOk(frame: seq<Byte>, header: seq<Byte>, mappedSize: nat) {
    && |frame| + |header| <= MAX_UINT32 - 40 && (mappedSize == 0 || mappedSize == |frame| + |header|)
    && |header| >= 12 && header[0] == 1
  }

  lemma ZeroLength(frame: seq<Byte>, off: nat)
    requires off + 4 <= |frame|
    ensures (forall i :: off <= i < |frame| ==> frame[i] == 0) ==> U32(frame, off) == 0
  {
  }

  lemma NotBoth(frame: seq<Byte>, off: nat)
    ensures !(RecordAt(frame, off) && Ended(frame, off))
  {
    if off + 4 <= |frame| { ZeroLength(frame, off); }
  }

  /** The section determines its records: a partial tiling starts every complete one. */
  lemma {:induction false} TilingDetermined(frame: seq<Byte>, offs: seq<nat>, all: seq<nat>)
    requires Tiling(frame, offs) && Tiling(frame, all) && Ended(frame, Stop(frame, all))
    ensures |offs| <= |all| && offs == all[..|offs|]
  {
    if offs != [] {
      var init := offs[..|offs| - 1];
      TilingDetermined(frame, init, all);
      if |init| == |all| {
        assert init == all;
        NotBoth(frame, offs[|offs| - 1]);
      } else {
        assert all[|init|] == offs[|init|] by {
          if init != [] { assert all[|init| - 1] == init[|init| - 1] == offs[|init| - 1]; }
        }
        assert all[..|offs|] == all[..|init|] + [all[|init|]];
      }
    }
  }

  /** Where the walk stands in a complete tiling: at its end, or at its next record. */
  lemma NextRecord(frame: seq<Byte>, offs: seq<nat>, all: seq<nat>)
    requires Tiling(frame, offs) && Tiling(frame, all) && Ended(frame, Stop(frame, all))
    ensures |offs| <= |all| && offs == all[..|offs|]
    ensures if |offs| == |all| then Ended(frame, Stop(frame, offs))
            else all[|offs|] == Stop(frame, offs) && RecordAt(frame, Stop(frame, offs))
  {
    TilingDetermined(frame, offs, all);
    if |offs| == |all| {
      assert offs == all;
    } else if offs != [] {
      assert all[|offs| - 1] == offs[|offs| - 1];
    }
  }

  /** No complete framing exists where the walk can neither stop nor go on. */
  lemma Stuck(frame: seq<Byte>, offs: seq<nat>, all: seq<nat>)
    requires Tiling(frame, offs) && !Ended(frame, Stop(frame, offs)) && !RecordAt(frame, Stop(frame, offs))
    ensures !Framing(frame, all)
  {
    if Framing(frame, all) { NextRecord(frame, offs, all); }
  }

  /** Nor where the next record is an FDE without its CIE. */
  lemma Unlinked(frame: seq<Byte>, offs: seq<nat>, all: seq<nat>)
    requires Tiling(frame, offs) && RecordAt(frame, Stop(frame, offs)) && LinkOf(frame, Stop(frame, offs)) != 0
    requires var off := Stop(frame, offs);
             forall j :: 0 <= j < |offs| && LinkOf(frame, offs[j]) == 0 ==> offs[j] != off + 4 - LinkOf(frame, off)
    ensures !Framing(frame, all)
  {
    NotBoth(frame, Stop(frame, offs));
    if Framing(frame, all) { NextRecord(frame, offs, all); }
  }

  lemma TilingGrows(frame: seq<Byte>, offs: seq<nat>)
    requires Tiling(frame, offs) && Linked(frame, offs) && RecordAt(frame, Stop(frame, offs))
    requires LinkOf(frame, Stop(frame, offs)) != 0 ==> LinksBack(frame, offs + [Stop(frame, offs)], |offs|)
    ensures var offs' := offs + [Stop(frame, offs)];
            Tiling(frame, offs') && Linked(frame, offs') && Stop(frame, offs') == EndOf(frame, Stop(frame, offs))
  {
    var offs' := offs + [Stop(frame, offs)];
    forall i | 0 <= i < |offs'| && LinkOf(frame, offs'[i]) != 0 ensures LinksBack(frame, offs', i) {
      if i < |offs| {
        assert LinksBack(frame, offs, i);
        var j :| 0 <= j < i && LinkOf(frame, offs[j]) == 0 && offs[j] == offs[i] + 4 - LinkOf(frame, offs[i]);
        assert offs'[j] == offs[j];
      }
    }
  }

  /** The walk has read the records `offs`, remembering the CIEs and counting the FDEs. */
  ghost predicate Walked(frame: seq<Byte>, offs: seq<nat>, off: nat, cies: set<int>, fdes: nat) {
    && Tiling(frame, offs) && Linked(frame, offs) && off == Stop(frame, offs)
    && (forall x :: x in cies <==> exists j :: 0 <= j < |offs| && LinkOf(frame, offs[j]) == 0 && offs[j] == x)
    && (fdes != 0 <==> HasFde(frame, offs))
  }

  lemma WalkedCie(frame: seq<Byte>, offs: seq<nat>, off: nat, cies: set<int>, fdes: nat)
    requires Walked(frame, offs, off, cies, fdes) && RecordAt(frame, off) && LinkOf(frame, off) == 0
    ensures Walked(frame, offs + [off], EndOf(frame, off), cies + {off}, fdes)
  {
    TilingGrows(frame, offs);
    var offs' := offs + [off];
    forall x ensures x in cies + {off} <==> exists j :: 0 <= j < |offs'| && LinkOf(frame, offs'[j]) == 0 && offs'[j] == x {
      if x == off { assert offs'[|offs|] == x; }
      if x in cies {
        var j :| 0 <= j < |offs| && LinkOf(frame, offs[j]) == 0 && offs[j] == x;
        assert offs'[j] == x;
      }
    }
    if HasFde(frame, offs) {
      var i :| 0 <= i < |offs| && LinkOf(frame, offs[i]) != 0;
      assert offs'[i] == offs[i];
    }
  }

  lemma WalkedFde(frame: seq<Byte>, offs: seq<nat>, off: nat, cies: set<int>, fdes: nat)
    requires Walked(frame, offs, off, cies, fdes) && RecordAt(frame, off)
    requires LinkOf(frame, off) != 0 && off + 4 - LinkOf(frame, off) in cies
    ensures Walked(frame, offs + [off], EndOf(frame, off), cies, fdes + 1)
  {
    var offs' := offs + [off];
    var j :| 0 <= j < |offs| && LinkOf(frame, offs[j]) == 0 && offs[j] == off + 4 - LinkOf(frame, off);
    assert offs'[j] == offs[j] && offs'[|offs|] == off;
    TilingGrows(frame, offs);
    forall x ensures x in cies <==> exists j :: 0 <= j < |offs'| && LinkOf(frame, offs'[j]) == 0 && offs'[j] == x {
      if x in cies {
        var j :| 0 <= j < |offs| && LinkOf(frame, offs[j]) == 0 && offs[j] == x;
        assert offs'[j] == x;
      }
    }
  }

  /** At the end of the section the count of FDEs decides. */
  lemma WalkedEnds(frame: seq<Byte>, offs: seq<nat>, off: nat, cies: set<int>, fdes: nat)
    requires Walked(frame, offs, off, cies, fdes) && Ended(frame, off)
    ensures fdes != 0 <==> exists all :: Framing(frame, all)
  {
    if fdes != 0 { assert Framing(frame, offs); }
    if all :| Framing(frame, all) {
      NextRecord(frame, offs, all);
      NotBoth(frame, off);
      assert offs == all;
    }
  }

  lemma WalkedStuck(frame: seq<Byte>, offs: seq<nat>, off: nat, cies: set<int>, fdes: nat)
    requires Walked(frame, offs, off, cies, fdes)
    requires if RecordAt(frame, off) then LinkOf(frame, off) != 0 && off + 4 - LinkOf(frame, off) !in cies
             else !Ended(frame, off)
    ensures !exists all :: Framing(frame, all)
  {
    forall all ensures !Framing(frame, all) {
      if RecordAt(frame, off) { Unlinked(frame, offs, all); } else { Stuck(frame, offs, all); }
    }
  }

  /** Accepts exactly the sections that have a framing, with a proper header and size. */
  method Validate(frame: seq<Byte>, header: seq<Byte>, mappedSize: nat) returns (ok: bool)
    ensures ok <==> HeaderOk(frame, header, mappedSize) && exists all :: Framing(frame, all)
  {
    hide Framing, Walked;
    var size := |frame| + |header|;
    if size > MAX_UINT32 - 40 || (mappedSize != 0 && mappedSize != size) { return false; }
    if |header| < 12 || header[0] != 1 { return false; }
    var cies: set<int> := {};
    var fdes := 0;
    var off := 0;
    ghost var offs: seq<nat> := [];
    assert Walked(frame, [], 0, {}, 0) by { WalkStarts(frame); }
    while off < |frame|
      invariant 0 <= off <= |frame| && 0 <= fdes && Walked(frame, offs, off, cies, fdes)
      decreases |frame| - off
    {
      if |frame| - off < 4 {
        WalkedStuck(frame, offs, off, cies, fdes);
        return false;
      }
      var length := U32(frame, off);
      if length == 0 {
        for i := off to |frame|
          invariant forall j :: off <= j < i ==> frame[j] == 0
        {
          if frame[i] != 0 {
            WalkedStuck(frame, offs, off, cies, fdes);
            return false;
          }
        }
        break;
      }
      if length == MAX_UINT32 || length < 4 || length > |frame| - off - 4 {
        ZeroLength(frame, off);
        WalkedStuck(frame, offs, off, cies, fdes);
        return false;
      }
      var link := U32(frame, off + 4);
      if link == 0 {
        WalkedCie(frame, offs, off, cies, fdes);
        cies := cies + {off};
      } else {
        if link > off + 4 || (off + 4 - link) !in cies {
          CiesWithin(frame, offs, off, cies, fdes);
          WalkedStuck(frame, offs, off, cies, fdes);
          return false;
        }
        WalkedFde(frame, offs, off, cies, fdes);
        fdes := fdes + 1;
      }
      offs := offs + [off];
      off := off + 4 + length;
    }
    WalkedEnds(frame, offs, off, cies, fdes);
    ok := fdes != 0;
  }

  lemma WalkStarts(frame: seq<Byte>)
    ensures Walked(frame, [], 0, {}, 0)
  {
  }

  lemma CiesWithin(frame: seq<Byte>, offs: seq<nat>, off: nat, cies: set<int>, fdes: nat)
    requires Walked(frame, offs, off, cies, fdes)
    ensures forall x :: x in cies ==> x >= 0
  {
  }
}
