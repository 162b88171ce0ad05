/**
 A consumer of unwind tables, written from the formats and not from the encoder: `.eh_frame`
 and `.eh_frame_hdr` as in section 10.6 of LSB Core, and the call frame instructions of section
 6.4 of DWARF Version 4.  Code lies at address 0, then the frame section at the aligned code
 size, then the header.
 */
module CallFrames {
  import opened Options
  import opened Bytes

  datatype Rule = Undefined | OffsetRule(n: int) | ValOffsetRule(n: int)

  /** A row of the virtual unwind table. */
  datatype Row = Row(cfaRegister: nat, cfaOffset: int, rules: map<int, Rule>)

  datatype Instruction =
    | Advance(delta: nat)
    | DefCfa(register: nat, offset: nat)
    | DefCfaOffset(offset: nat)
    | OffsetInstr(register: nat, factored: nat)
    | ValOffset(register: nat, factored: nat)
    | UndefinedInstr(register: nat)
    | Nop

  /** Instructions with one ULEB128 operand: offset, undefined, def_cfa_offset. */
  function OneOperand(op: int, b: seq<Byte>): (r: Option<(Instruction, seq<Byte>)>)
    requires 0x80 <= op < 0xc0 || op == 0x07 || op == 0x0e
    ensures r.Some? ==> |r.value.1| < |b|
  {
    match DecodeULEB(b)
    case None => None
    case Some((n, rest)) =>
      Some((if op >= 0x80 then OffsetInstr(op - 0x80, n) else if op == 0x07 then UndefinedInstr(n) else DefCfaOffset(n), rest))
  }

  /** Instructions with two ULEB128 operands: def_cfa, val_offset. */
  function TwoOperands(op: int, b: seq<Byte>): (r: Option<(Instruction, seq<Byte>)>)
    requires op == 0x0c || op == 0x14
    ensures r.Some? ==> |r.value.1| < |b|
  {
    match DecodeULEB(b)
    case None => None
    case Some((n, rest)) =>
      match DecodeULEB(rest)
      case None => None
      case Some((m, rest')) => Some((if op == 0x0c then DefCfa(n, m) else ValOffset(n, m), rest'))
  }

  /** Decodes the first instruction; unsupported opcodes fail. */
  function Fetch(b: seq<Byte>): (r: Option<(Instruction, seq<Byte>)>)
    ensures r.Some? ==> |r.value.1| < |b|
  {
    if b == [] then None
    else
      var op := b[0] as int;
      var rest := b[1..];
      if 0x40 <= op < 0x80 then Some((Advance(op - 0x40), rest))
      else if 0x80 <= op < 0xc0 || op == 0x07 || op == 0x0e then OneOperand(op, rest)
      else if op == 0x00 then Some((Nop, rest))
      else if op == 0x02 && |rest| >= 1 then Some((Advance(rest[0]), rest[1..]))
      else if op == 0x03 && |rest| >= 2 then Some((Advance(rest[0] as int + 256 * (rest[1] as int)), rest[2..]))
      else if op == 0x04 && |rest| >= 4 then Some((Advance(U32(rest, 0)), rest[4..]))
      else if op == 0x0c || op == 0x14 then TwoOperands(op, rest)
      else None
  }

  function Apply(i: Instruction, row: Row, dataAlign: int): Row {
    match i
    case Advance(_) => row
    case DefCfa(r, n) => row.(cfaRegister := r, cfaOffset := n)
    case DefCfaOffset(n) => row.(cfaOffset := n)
    case OffsetInstr(r, n) => row.(rules := row.rules[r := OffsetRule(n * dataAlign)])
    case ValOffset(r, n) => row.(rules := row.rules[r := ValOffsetRule(n * dataAlign)])
    case UndefinedInstr(r) => row.(rules := row.rules[r := Undefined])
    case Nop => row
  }

  /** Runs a call frame program up to `pc` from location `loc`. */
  function Execute(b: seq<Byte>, row: Row, loc: int, pc: int, codeAlign: nat, dataAlign: int): Option<Row>
    decreases |b|
  {
    if b == [] then Some(row)
    else
      match Fetch(b)
      case None => None
      case Some((Advance(delta), rest)) =>
        if loc + delta * codeAlign > pc then Some(row)
        else Execute(rest, row, loc + delta * codeAlign, pc, codeAlign, dataAlign)
      case Some((i, rest)) => Execute(rest, Apply(i, row, dataAlign), loc, pc, codeAlign, dataAlign)
  }

  datatype Cie = Cie(codeAlign: nat, dataAlign: int, returnRegister: nat, pointerEncoding: Byte, code: seq<Byte>)

  /** The bytes of the record at `off`, after its length field. */
  function Record(frame: seq<Byte>, off: int): Option<seq<Byte>> {
    if off < 0 || off + 4 > |frame| || off + 4 + U32(frame, off) > |frame| then None
    else Some(frame[off + 4..off + 4 + U32(frame, off)])
  }

  /** A version 1 CIE with augmentation "zR". */
  function ParseCie(frame: seq<Byte>, off: int): Option<Cie> {
    match Record(frame, off)
    case None => None
    case Some(b) =>
      if |b| < 8 || U32(b, 0) != 0 || b[4..8] != [1, 'z' as int, 'R' as int, 0] then None
      else ParseCieTail(b[8..])
  }

  function ParseCieTail(b: seq<Byte>): Option<Cie> {
    match DecodeULEB(b)
    case None => None
    case Some((codeAlign, b1)) =>
      match DecodeSLEB(b1)
      case None => None
      case Some((dataAlign, b2)) =>
        match DecodeULEB(if |b2| > 0 then b2[1..] else [])
        case None => None
        case Some((n, b3)) =>
          if |b2| == 0 || n != 1 || |b3| < 1 then None
          else Some(Cie(codeAlign, dataAlign, b2[0], b3[0], b3[1..]))
  }

  datatype Fde = Fde(cieAt: int, begin: int, range: nat, code: seq<Byte>)

  /** An FDE whose pointers are PC-relative signed 32-bit; `base` is the address of the section. */
  function ParseFde(frame: seq<Byte>, base: int, off: int): Option<Fde> {
    match Record(frame, off)
    case None => None
    case Some(b) =>
      if |b| < 12 || U32(b, 0) == 0 then None
      else
        match DecodeULEB(b[12..])
        case None => None
        case Some((n, rest)) =>
          if n > |rest| then None
          else Some(Fde(off + 4 - U32(b, 0), base + off + 8 + S32(b, 4), U32(b, 8), rest[n..]))
  }

  const EMPTY_ROW := Row(0, 0, map[])

  /** The row that the record at `off` gives for `pc`; None when it does not cover it. */
  function RowFromFde(frame: seq<Byte>, base: int, off: int, pc: int): Option<Row> {
    match ParseFde(frame, base, off)
    case None => None
    case Some(fde) =>
      if !(fde.begin <= pc < fde.begin + fde.range) then None
      else
        match ParseCie(frame, fde.cieAt)
        case None => None
        case Some(cie) =>
          if cie.pointerEncoding != 0x1b then None
          else
            match Execute(cie.code, EMPTY_ROW, 0, 0, cie.codeAlign, cie.dataAlign)
            case None => None
            case Some(initial) => Execute(fde.code, initial, fde.begin, pc, cie.codeAlign, cie.dataAlign)
  }

  /** The search-table entry to use: the last of the first `n` whose initial location is not after `pc`. */
  function LastEntry(header: seq<Byte>, headerAt: int, n: nat, pc: int): Option<nat>
    requires 12 + 8 * n <= |header|
  {
    if n == 0 then None
    else if headerAt + S32(header, 12 + 8 * (n - 1)) <= pc then Some(n - 1)
    else LastEntry(header, headerAt, n - 1, pc)
  }

  lemma {:induction false} LastEntryInRange(header: seq<Byte>, headerAt: int, n: nat, pc: int)
    requires 12 + 8 * n <= |header|
    ensures LastEntry(header, headerAt, n, pc).Some? ==> LastEntry(header, headerAt, n, pc).value < n
  {
    if n > 0 { LastEntryInRange(header, headerAt, n - 1, pc); }
  }

  /** Unwinds at `pc`: header, search table, FDE, CIE, then both programs. */
  function Unwind(frame: seq<Byte>, header: seq<Byte>, base: int, pc: int): Option<Row> {
    var headerAt := base + |frame|;
    if |header| < 12 || header[..4] != [1, 0x1b, 3, 0x3b] then None
    else if headerAt + 4 + S32(header, 4) != base then None
    else if 12 + 8 * U32(header, 8) > |header| then None
    else
      match LastEntry(header, headerAt, U32(header, 8), pc)
      case None => None
      case Some(i) =>
        LastEntryInRange(header, headerAt, U32(header, 8), pc);
        RowFromFde(frame, base, |frame| + S32(header, 16 + 8 * i), pc)
  }
}
