/**
 Sparse unwind directories (internal/jitprofile/unwind.go): which directories are framed
 properly, and which rule applies at a code offset.
 */
module UnwindRules {
  import opened Options
  import opened Words

  /** CFA = register + cfaOffset, and the return address is at CFA + returnOffset. */
  datatype UnwindRange = UnwindRange(offset: UInt64, size: UInt64, cfaRegister: nat, cfaOffset: Int64, returnOffset: Int64) {
    function End(): int {
      offset + size
    }

    predicate Contains(pc: int) {
      offset <= pc < End()
    }
  }

  predicate RangeValid(r: UnwindRange, size: UInt64) {
    && r.size != 0 && r.End() <= size
    && r.cfaRegister <= 255 && r.cfaOffset > 0 && -r.cfaOffset <= r.returnOffset < 0
  }

  /** Each range fits the code region, is nonempty and starts at or after the end of the one before. */
  predicate DirectoryValid(ranges: seq<UnwindRange>, size: UInt64) {
    && (forall i :: 0 <= i < |ranges| ==> RangeValid(ranges[i], size))
    && (forall i :: 0 < i < |ranges| ==> ranges[i - 1].End() <= ranges[i].offset)
  }

  lemma {:induction false} DirectoryOrdered(ranges: seq<UnwindRange>, size: UInt64, i: int, j: int)
    requires DirectoryValid(ranges, size) && 0 <= i < j < |ranges|
    ensures ranges[i].End() <= ranges[j].offset
    decreases j
  {
    if i < j - 1 { DirectoryOrdered(ranges, size, i, j - 1); }
  }

  /** The rule at `pc`: the one range containing it, if any. */
  ghost predicate RuleAt(ranges: seq<UnwindRange>, pc: int, r: Option<UnwindRange>) {
    match r
    case None => forall i :: 0 <= i < |ranges| ==> !ranges[i].Contains(pc)
    case Some(x) => x in ranges && x.Contains(pc)
  }

  /** A valid directory has at most one rule per offset. */
  lemma RuleUnique(ranges: seq<UnwindRange>, size: UInt64, pc: int, a: Option<UnwindRange>, b: Option<UnwindRange>)
    requires DirectoryValid(ranges, size) && RuleAt(ranges, pc, a) && RuleAt(ranges, pc, b)
    ensures a == b
  {
    if a.Some? && b.Some? {
      var i :| 0 <= i < |ranges| && ranges[i] == a.value;
      var j :| 0 <= j < |ranges| && ranges[j] == b.value;
      if i < j { DirectoryOrdered(ranges, size, i, j); }
      if j < i { DirectoryOrdered(ranges, size, j, i); }
    }
  }

  method ValidateUnwind(ranges: seq<UnwindRange>, size: UInt64) returns (ok: bool)
    ensures ok <==> DirectoryValid(ranges, size)
  {
    var end := 0;
    for i := 0 to |ranges|
      invariant end == if i == 0 then 0 else ranges[i - 1].End()
      invariant forall j :: 0 <= j < i ==> RangeValid(ranges[j], size)
      invariant forall j :: 0 < j < i ==> ranges[j - 1].End() <= ranges[j].offset
    {
      var r := ranges[i];
      if r.size == 0 || r.offset < end || r.offset > size || r.size > size - r.offset || r.cfaRegister > 255
         || r.cfaOffset <= 0 || r.returnOffset >= 0 || r.returnOffset < -r.cfaOffset {
        assert !RangeValid(ranges[i], size) || (i > 0 && ranges[i - 1].End() > ranges[i].offset);
        return false;
      }
      end := r.offset + r.size;
    }
    ok := true;
  }

  /** Binary search for the last range starting at or before `offset`; never extends a rule over a gap. */
  method LookupUnwind(ranges: seq<UnwindRange>, offset: UInt64, ghost size: UInt64) returns (r: Option<UnwindRange>)
    requires DirectoryValid(ranges, size)
    ensures RuleAt(ranges, offset, r)
  {
    var lo, hi := 0, |ranges|;
    while lo < hi
      invariant 0 <= lo <= hi <= |ranges|
      invariant forall i :: 0 <= i < lo ==> ranges[i].offset <= offset
      invariant forall i :: hi <= i < |ranges| ==> ranges[i].offset > offset
    {
      var mid := (lo + hi) / 2;
      if ranges[mid].offset > offset {
        forall i | mid <= i < |ranges| ensures ranges[i].offset > offset {
          if mid < i { DirectoryOrdered(ranges, size, mid, i); }
        }
        hi := mid;
      } else {
        forall i | 0 <= i <= mid ensures ranges[i].offset <= offset {
          if i < mid { DirectoryOrdered(ranges, size, i, mid); }
        }
        lo := mid + 1;
      }
    }
    var i := lo - 1;
    if i < 0 { return None; }
    forall j | 0 <= j < i ensures !ranges[j].Contains(offset) {
      DirectoryOrdered(ranges, size, j, i);
    }
    if offset - ranges[i].offset < ranges[i].size {
      r := Some(ranges[i]);
    } else {
      r := None;
    }
  }
}
