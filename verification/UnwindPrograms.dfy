/**
 The call frame programs that the encoder emits, and what a consumer computes from them.
 */
module UnwindPrograms {
  import opened Options
  import opened Bytes
  import opened UnwindRules
  import opened CallFrames

  const RSP := 7
  const RIP := 16
  const LAST_REGISTER := 32

  /** appendCFIAdvance: the shortest form that holds the delta. */
  function AdvanceBytes(delta: nat): seq<Byte> {
    if delta == 0 then []
    else if delta <= 63 then [0x40 + delta]
    else if delta <= 255 then [2, delta]
    else if delta <= 65535 then [3, delta % 256, delta / 256]
    else [4] + LE32(delta)
  }

  /** One source rule: advance, def_cfa_offset, offset RIP. */
  function RuleBytes(r: UnwindRange): seq<Byte>
    requires r.cfaOffset > 0 && -r.cfaOffset <= r.returnOffset < 0
  {
    [0x0e] + ULEB(r.cfaOffset) + [0x90] + ULEB(-r.returnOffset / 8)
  }

  /** The location from which row k is reached. */
  function Before(rows: seq<UnwindRange>, k: nat): int
    requires k < |rows|
  {
    if k == 0 then rows[0].offset else rows[k - 1].offset
  }

  /** Rules the encoder supports, in increasing order. */
  predicate Encodable(r: UnwindRange) {
    r.cfaRegister == RSP && r.cfaOffset > 0 && -r.cfaOffset <= r.returnOffset < 0 && r.returnOffset % 8 == 0
  }

  predicate RowsOk(rows: seq<UnwindRange>) {
    && (forall i :: 0 <= i < |rows| ==> Encodable(rows[i]) && rows[i].size > 0 && rows[i].offset < 0x8000_0000)
    && (forall i :: 0 < i < |rows| ==> rows[i - 1].End() == rows[i].offset)
  }

  function RowsFrom(rows: seq<UnwindRange>, k: nat): seq<Byte>
    requires RowsOk(rows) && k <= |rows|
    decreases |rows| - k
  {
    if k == |rows| then []
    else AdvanceBytes(rows[k].offset - Before(rows, k)) + RuleBytes(rows[k]) + RowsFrom(rows, k + 1)
  }

  function Zeros(n: nat): seq<Byte> {
    seq(n, _ => 0)
  }

  function RegisterRule(r: int, returnOffset: int): Rule {
    if r == RIP then OffsetRule(returnOffset) else if r == RSP then ValOffsetRule(0) else Undefined
  }

  /** Every register but RSP and RIP is explicitly unrecoverable; the caller's RSP is the CFA. */
  function RulesFor(returnOffset: int): map<int, Rule> {
    map r | 0 <= r <= LAST_REGISTER :: RegisterRule(r, returnOffset)
  }

  /** The unwind row that a source rule means. */
  function RowOf(r: UnwindRange): Row {
    Row(RSP, r.cfaOffset, RulesFor(r.returnOffset))
  }

  ghost predicate IsBase(row: Row) {
    row.cfaRegister == RSP && exists x :: row.rules == RulesFor(x)
  }

  /* ---------- Executing the program ---------- */

  /** One instruction that does not move the location. */
  lemma ExecuteOne(b: seq<Byte>, i: Instruction, rest: seq<Byte>, row: Row, loc: int, pc: int)
    requires Fetch(b) == Some((i, rest)) && !i.Advance?
    ensures Execute(b, row, loc, pc, 1, -8) == Execute(rest, Apply(i, row, -8), loc, pc, 1, -8)
  {
  }

  lemma ExecuteMove(b: seq<Byte>, delta: nat, rest: seq<Byte>, row: Row, loc: int, pc: int)
    requires Fetch(b) == Some((Advance(delta), rest))
    ensures Execute(b, row, loc, pc, 1, -8) == if loc + delta > pc then Some(row) else Execute(rest, row, loc + delta, pc, 1, -8)
  {
  }

  lemma FetchAdvance(delta: nat, rest: seq<Byte>)
    requires 0 < delta < TWO32
    ensures Fetch(AdvanceBytes(delta) + rest) == Some((Advance(delta), rest))
  {
    var b := AdvanceBytes(delta) + rest;
    if delta <= 63 {
      assert b[1..] == rest;
    } else if delta <= 255 {
      assert b[1..] == [delta] + rest;
      assert b[1..][1..] == rest;
    } else if delta <= 65535 {
      assert b[1..] == [delta % 256, delta / 256] + rest;
      assert b[1..][2..] == rest;
    } else {
      FetchWide(delta, rest);
    }
  }

  lemma FetchWide(delta: nat, rest: seq<Byte>)
    requires delta < TWO32
    ensures Fetch([4] + LE32(delta) + rest) == Some((Advance(delta), rest))
  {
    var b := [4] + LE32(delta) + rest;
    var t := b[1..];
    assert t == LE32(delta) + rest;
    assert t[4..] == rest && t[0..4] == LE32(delta);
    U32Slice(t, 0);
    LE32RoundTrip(delta);
  }

  lemma FetchOne(op: Byte, n: nat, rest: seq<Byte>)
    requires 0x80 <= op < 0xc0 || op == 0x07 || op == 0x0e
    ensures Fetch([op] + ULEB(n) + rest) ==
            Some((if op >= 0x80 then OffsetInstr(op - 0x80, n) else if op == 0x07 then UndefinedInstr(n) else DefCfaOffset(n), rest))
  {
    assert ([op] + ULEB(n) + rest)[1..] == ULEB(n) + rest;
    ULEBRoundTrip(n, rest);
  }

  lemma FetchTwo(op: Byte, n: nat, m: nat, rest: seq<Byte>)
    requires op == 0x0c || op == 0x14
    ensures Fetch([op] + ULEB(n) + ULEB(m) + rest) == Some((if op == 0x0c then DefCfa(n, m) else ValOffset(n, m), rest))
  {
    assert ([op] + ULEB(n) + ULEB(m) + rest)[1..] == ULEB(n) + (ULEB(m) + rest);
    ULEBRoundTrip(n, ULEB(m) + rest);
    ULEBRoundTrip(m, rest);
  }

  lemma ExecuteAdvance(delta: nat, rest: seq<Byte>, row: Row, loc: int, pc: int)
    requires delta < TWO32
    ensures Execute(AdvanceBytes(delta) + rest, row, loc, pc, 1, -8) ==
            if delta > 0 && loc + delta > pc then Some(row) else Execute(rest, row, loc + delta, pc, 1, -8)
  {
    hide Execute, Fetch;
    if delta == 0 {
      assert AdvanceBytes(delta) + rest == rest;
    } else {
      FetchAdvance(delta, rest);
      ExecuteMove(AdvanceBytes(delta) + rest, delta, rest, row, loc, pc);
    }
  }

  lemma ExecuteRule(r: UnwindRange, rest: seq<Byte>, row: Row, loc: int, pc: int)
    requires Encodable(r) && IsBase(row)
    ensures Execute(RuleBytes(r) + rest, row, loc, pc, 1, -8) == Execute(rest, RowOf(r), loc, pc, 1, -8)
  {
    hide Execute, Fetch;
    var n := -r.returnOffset / 8;
    var tail := [0x90] + ULEB(n) + rest;
    assert RuleBytes(r) + rest == [0x0e] + ULEB(r.cfaOffset) + tail;
    FetchOne(0x0e, r.cfaOffset, tail);
    ExecuteOne(RuleBytes(r) + rest, DefCfaOffset(r.cfaOffset), tail, row, loc, pc);
    FetchOne(0x90, n, rest);
    ExecuteOne(tail, OffsetInstr(RIP, n), rest, row.(cfaOffset := r.cfaOffset), loc, pc);
    assert n * -8 == r.returnOffset;
    assert row.rules[RIP := OffsetRule(r.returnOffset)] == RulesFor(r.returnOffset);
  }

  lemma {:induction false} ExecuteZeros(n: nat, row: Row, loc: int, pc: int)
    ensures Execute(Zeros(n), row, loc, pc, 1, -8) == Some(row)
  {
    if n > 0 {
      assert Zeros(n)[1..] == Zeros(n - 1);
      assert Fetch(Zeros(n)) == Some((Nop, Zeros(n - 1)));
      ExecuteZeros(n - 1, row, loc, pc);
    }
  }

  /** From row k on, the program stops at the last row that starts at or before `pc`. */
  lemma {:induction false} ExecuteRows(rows: seq<UnwindRange>, k: nat, pad: nat, row: Row, pc: int) returns (j: nat)
    requires RowsOk(rows) && rows != [] && k <= |rows| && IsBase(row) && rows[0].offset <= pc
    requires k > 0 ==> row == RowOf(rows[k - 1]) && rows[k - 1].offset <= pc
    ensures j < |rows| && rows[j].offset <= pc && (j + 1 < |rows| ==> pc < rows[j + 1].offset)
    ensures var loc := if k == 0 then rows[0].offset else rows[k - 1].offset;
            Execute(RowsFrom(rows, k) + Zeros(pad), row, loc, pc, 1, -8) == Some(RowOf(rows[j]))
    decreases |rows| - k
  {
    hide Execute, AdvanceBytes, RuleBytes;
    var loc := if k == 0 then rows[0].offset else rows[k - 1].offset;
    if k == |rows| {
      j := k - 1;
      assert RowsFrom(rows, k) + Zeros(pad) == Zeros(pad);
      ExecuteZeros(pad, row, loc, pc);
    } else {
      var delta := rows[k].offset - Before(rows, k);
      var rest := RowsFrom(rows, k + 1) + Zeros(pad);
      assert RowsFrom(rows, k) + Zeros(pad) == AdvanceBytes(delta) + (RuleBytes(rows[k]) + rest);
      ExecuteAdvance(delta, RuleBytes(rows[k]) + rest, row, loc, pc);
      if delta > 0 && loc + delta > pc {
        j := k - 1;
      } else {
        ExecuteRule(rows[k], rest, row, loc + delta, pc);
        assert RowOf(rows[k]).rules == RulesFor(rows[k].returnOffset);
        j := ExecuteRows(rows, k + 1, pad, RowOf(rows[k]), pc);
      }
    }
  }

  /** In a contiguous run, the last row starting at or before a covered `pc` contains it. */
  lemma {:induction false} LastRowContains(rows: seq<UnwindRange>, j: nat, pc: int)
    requires RowsOk(rows) && j < |rows| && rows[j].offset <= pc < rows[|rows| - 1].End()
    requires j + 1 < |rows| ==> pc < rows[j + 1].offset
    ensures rows[j].Contains(pc)
  {
  }

  /* ---------- The common entry ---------- */

  function UndefinedFrom(r: nat): seq<Byte>
    decreases LAST_REGISTER + 1 - r
  {
    if r > LAST_REGISTER then []
    else (if r == RSP || r == RIP then [] else [0x07, r]) + UndefinedFrom(r + 1)
  }

  const CIE_HEAD: seq<Byte> := [0, 0, 0, 0, 1, 'z' as int, 'R' as int, 0, 1, 0x78, 16, 1, 0x1b]
  const CIE_RULES: seq<Byte> := [0x0c, 7, 8, 0x90, 1, 0x14, 7, 0]

  function CieProgram(): seq<Byte> {
    CIE_RULES + UndefinedFrom(0)
  }

  function CieBody(): seq<Byte> {
    CIE_HEAD + CieProgram()
  }

  /** The rules once the registers below r are done. */
  function RulesBelow(r: nat): map<int, Rule> {
    map i | 0 <= i <= LAST_REGISTER && (i < r || i == RSP || i == RIP) :: RegisterRule(i, -8)
  }

  lemma UndefinedUnfold(r: nat, tail: seq<Byte>)
    requires r <= LAST_REGISTER
    ensures UndefinedFrom(r) + tail ==
            if r == RSP || r == RIP then UndefinedFrom(r + 1) + tail else [0x07] + ULEB(r) + (UndefinedFrom(r + 1) + tail)
  {
    if r == RSP || r == RIP {
      assert UndefinedFrom(r) == UndefinedFrom(r + 1);
    } else {
      assert ULEB(r) == [r];
      assert UndefinedFrom(r) == [0x07, r] + UndefinedFrom(r + 1);
    }
  }

  lemma RulesStep(r: nat)
    ensures r == RSP || r == RIP ==> RulesBelow(r) == RulesBelow(r + 1)
    ensures r <= LAST_REGISTER && r != RSP && r != RIP ==> RulesBelow(r)[r := Undefined] == RulesBelow(r + 1)
    ensures r > LAST_REGISTER ==> RulesBelow(r) == RulesFor(-8)
  {
  }

  lemma {:induction false} ExecuteUndefined(r: nat, pad: nat)
    requires r <= LAST_REGISTER + 1
    ensures Execute(UndefinedFrom(r) + Zeros(pad), Row(RSP, 8, RulesBelow(r)), 0, 0, 1, -8) == Some(Row(RSP, 8, RulesFor(-8)))
    decreases LAST_REGISTER + 1 - r
  {
    hide Execute, Fetch, UndefinedFrom, RulesBelow, RulesFor, ULEB;
    RulesStep(r);
    if r > LAST_REGISTER {
      assert UndefinedFrom(r) + Zeros(pad) == Zeros(pad) by { UndefinedEnds(r); }
      ExecuteZeros(pad, Row(RSP, 8, RulesBelow(r)), 0, 0);
    } else {
      ExecuteUndefined(r + 1, pad);
      UndefinedUnfold(r, Zeros(pad));
      var rest := UndefinedFrom(r + 1) + Zeros(pad);
      if r != RSP && r != RIP {
        FetchOne(0x07, r, rest);
        ExecuteOne([0x07] + ULEB(r) + rest, UndefinedInstr(r), rest, Row(RSP, 8, RulesBelow(r)), 0, 0);
      }
    }
  }

  lemma UndefinedEnds(r: nat)
    requires r > LAST_REGISTER
    ensures UndefinedFrom(r) == []
  {
  }

  lemma ExecuteCie(pad: nat)
    ensures Execute(CieProgram() + Zeros(pad), EMPTY_ROW, 0, 0, 1, -8) == Some(Row(RSP, 8, RulesFor(-8)))
  {
    hide Execute, Fetch, UndefinedFrom;
    var rest := UndefinedFrom(0) + Zeros(pad);
    var b0 := CieProgram() + Zeros(pad);
    var b1 := [0x90, 1, 0x14, 7, 0] + rest;
    var b2 := [0x14, 7, 0] + rest;
    assert b0 == [0x0c] + ULEB(7) + ULEB(8) + b1;
    FetchTwo(0x0c, 7, 8, b1);
    ExecuteOne(b0, DefCfa(7, 8), b1, EMPTY_ROW, 0, 0);
    assert b1 == [0x90] + ULEB(1) + b2;
    FetchOne(0x90, 1, b2);
    ExecuteOne(b1, OffsetInstr(16, 1), b2, Row(RSP, 8, map[]), 0, 0);
    assert b2 == [0x14] + ULEB(7) + ULEB(0) + rest;
    FetchTwo(0x14, 7, 0, rest);
    ExecuteOne(b2, ValOffset(7, 0), rest, Row(RSP, 8, map[16 := OffsetRule(-8)]), 0, 0);
    assert map[16 := OffsetRule(-8)][7 := ValOffsetRule(0)] == RulesBelow(0);
    ExecuteUndefined(0, pad);
  }
}
