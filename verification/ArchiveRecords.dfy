/**
 Coverage of an archive's file-data region (internal/sourcearchive/archive.go): the local file
 records of section 4.3 of PKWARE APPNOTE must tile everything before the central directory.
 */
module ArchiveRecords {
  import opened FiniteSets

  /** Start of each local record to its end. */
  type Records = map<int, int>

  predicate Holds(r: Records, s: int, x: int)
    requires s in r
  {
    s <= x < r[s]
  }

  ghost predicate Inside(r: Records, end: int) {
    forall s :: s in r ==> 0 <= s < r[s] <= end
  }

  ghost predicate Disjoint(r: Records) {
    forall s, t :: s in r && t in r && s != t ==> r[s] <= t || r[t] <= s
  }

  ghost predicate Covered(r: Records, starts: set<int>, x: int) {
    exists s :: s in starts && s in r && Holds(r, s, x)
  }

  /** Nonempty records without gap or overlap from zero to the end, and nothing else. */
  ghost predicate Tile(r: Records, end: int) {
    && end >= 0 && Inside(r, end) && Disjoint(r)
    && (forall x :: 0 <= x < end ==> Covered(r, r.Keys, x))
  }

  /** The records visited so far tile [0, offset). */
  ghost predicate Chain(r: Records, visited: set<int>, offset: int) {
    && visited <= r.Keys
    && (forall s :: s in visited ==> 0 <= s < r[s] <= offset)
    && (forall s, t :: s in visited && t in visited && s != t ==> r[s] <= t || r[t] <= s)
    && (forall x :: 0 <= x < offset ==> Covered(r, visited, x))
  }

  lemma SameRecord(r: Records, s: int, t: int, x: int)
    requires Disjoint(r) && s in r && t in r && Holds(r, s, x) && Holds(r, t, x)
    ensures s == t
  {
  }

  /** In a tiling, a record starts where the chain has arrived. */
  lemma NextStarts(r: Records, end: int, visited: set<int>, offset: int)
    requires Tile(r, end) && Chain(r, visited, offset) && 0 <= offset < end
    ensures offset in r && offset < r[offset] <= end
  {
    assert Covered(r, r.Keys, offset);
    var s :| s in r && Holds(r, s, offset);
    if s < offset {
      assert Covered(r, visited, s);
      var t :| t in visited && t in r && Holds(r, t, s);
      SameRecord(r, s, t, s);
    }
  }

  lemma ChainGrows(r: Records, visited: set<int>, offset: int)
    requires Chain(r, visited, offset) && offset in r && offset < r[offset] && offset >= 0
    ensures Chain(r, visited + {offset}, r[offset]) && offset !in visited
  {
    forall x | 0 <= x < r[offset] ensures Covered(r, visited + {offset}, x) {
      if x < offset {
        assert Covered(r, visited, x);
        var s :| s in visited && s in r && Holds(r, s, x);
        assert s in visited + {offset};
      } else {
        assert Holds(r, offset, x);
      }
    }
  }

  /** A finished chain of as many records as there are is a tiling by all of them. */
  lemma ChainIsTile(r: Records, end: int, visited: set<int>)
    requires Chain(r, visited, end) && end >= 0 && |visited| == |r|
    ensures Tile(r, end)
  {
    if visited != r.Keys {
      assert visited < r.Keys;
      ProperSubsetSize(visited, r.Keys);
    }
    assert visited == r.Keys;
  }

  /** In a tiling, a finished chain has visited every record. */
  lemma TileIsChain(r: Records, end: int, visited: set<int>)
    requires Tile(r, end) && Chain(r, visited, end)
    ensures visited == r.Keys && |visited| == |r|
  {
    forall s | s in r ensures s in visited {
      assert Covered(r, visited, s);
      var t :| t in visited && t in r && Holds(r, t, s);
      SameRecord(r, s, t, s);
    }
  }

  method ValidateLocalRecordCoverage(records: Records, directoryOffset: int) returns (ok: bool)
    ensures ok <==> Tile(records, directoryOffset)
  {
    hide Tile, Chain;
    var offset, count := 0, 0;
    ghost var visited: set<int> := {};
    ChainStart(records);
    while offset < directoryOffset
      invariant Chain(records, visited, offset) && count == |visited| && 0 <= offset
      invariant offset <= directoryOffset || offset == 0
      decreases directoryOffset - offset
    {
      if offset !in records || records[offset] <= offset || records[offset] > directoryOffset {
        if Tile(records, directoryOffset) { NextStarts(records, directoryOffset, visited, offset); }
        return false;
      }
      ChainGrows(records, visited, offset);
      visited := visited + {offset};
      offset := records[offset];
      count := count + 1;
    }
    if offset != directoryOffset {
      Negative(records, directoryOffset);
      return false;
    }
    if Tile(records, directoryOffset) {
      TileIsChain(records, directoryOffset, visited);
    }
    if count == |records| { ChainIsTile(records, directoryOffset, visited); }
    ok := count == |records|;
  }

  lemma ChainStart(r: Records)
    ensures Chain(r, {}, 0)
  {
  }

  lemma Negative(r: Records, end: int)
    ensures Tile(r, end) ==> end >= 0
  {
  }
}
