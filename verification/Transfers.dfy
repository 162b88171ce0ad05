/**
 The allocation-transfer vocabulary of internal/regalloccheck: byte locations, emitted
 effects, and the predicates that admit them into a checked graph.
 */
module Transfers {

  const MAX_CARRIER_BYTES := 64

  type Int32 = x: int | -0x8000_0000 <= x < 0x8000_0000
  type UInt8 = x: int | 0 <= x < 256

  datatype Bank = GP | FP | Frame | Unknown | ReturnArea

  /** Two's complement truncation to a signed 32-bit integer. */
  function WrapInt32(x: int): Int32 {
    (x + 0x8000_0000) % 0x1_0000_0000 - 0x8000_0000
  }

  /** A physical register byte, or (in bank `Frame`) a byte of the native frame. */
  datatype Location = Location(bank: Bank, index: Int32, byte: UInt8) {
    /** Steps `n` bytes forward, with the machine's wrap-around. */
    function Next(n: nat): Location {
      if bank.Frame? then this.(index := WrapInt32(index + n)) else this.(byte := (byte + n) % 256)
    }

    /** `at` is one of the `size` bytes that start here, when no wrap-around occurs. */
    predicate Covers(size: nat, at: Location) {
      && at.bank == bank
      && if bank.Frame? then at.byte == byte && index <= at.index < index + size
         else at.index == index && byte <= at.byte < byte + size
    }

    /** The position of a covered byte. */
    function Offset(at: Location): int {
      if bank.Frame? then at.index - index else at.byte - byte
    }
  }

  datatype Kind = Copy | Swap | Kill | Call | Read

  datatype Effect = Effect(kind: Kind, dst: Location, src: Location, size: int, clearTo: int)

  function Max(a: int, b: int): int {
    if a < b then b else a
  }

  /** flowLocation: `size` bytes at `loc` are a carrier; `unknown` admits untracked addresses. */
  predicate ValidCarrier(loc: Location, size: int, unknown: bool) {
    && 1 <= size <= MAX_CARRIER_BYTES
    && match loc.bank
       case GP => 0 <= loc.index < 32 && loc.byte + size <= 8
       case FP => 0 <= loc.index < 32 && loc.byte + size <= MAX_CARRIER_BYTES
       case Frame => loc.byte == 0 && loc.index + size - 1 <= 0x7fff_ffff
       case ReturnArea => loc.index == 0 && loc.byte + size <= 8
       case Unknown => unknown
  }

  const RETURN_AREA := Location(ReturnArea, 0, 0)
  const ZERO_LOCATION := Location(GP, 0, 0)

  predicate ReturnAreaEffectValid(e: Effect) {
    && e.dst == RETURN_AREA && e.size == 8 && e.clearTo == 0
    && match e.kind
       case Copy => e.src.bank.GP? && e.src.byte == 0 && ValidCarrier(e.src, 8, false)
       case Kill => e.src == ZERO_LOCATION
       case _ => false
  }

  predicate PartialOverlap(a: Location, b: Location, size: int) {
    if a.bank != b.bank || a == b then false
    else if a.bank.Frame? then a.index < b.index + size && b.index < a.index + size
    else a.index == b.index && a.byte < b.byte + size && b.byte < a.byte + size
  }

  predicate EffectValid(e: Effect) {
    if e.dst.bank.ReturnArea? || e.src.bank.ReturnArea? then ReturnAreaEffectValid(e)
    else if e.kind.Call? then e.size == 0 && e.clearTo == 0
    else
      && 1 <= e.size <= MAX_CARRIER_BYTES
      && e.clearTo >= 0
      && (e.clearTo != 0 ==> e.clearTo >= e.size)
      && (e.kind.Read? ==> e.clearTo == 0)
      && (!e.kind.Read? ==> ValidCarrier(e.dst, Max(e.size, e.clearTo), false))
      && (e.kind.Copy? || e.kind.Swap? || e.kind.Read? ==> ValidCarrier(e.src, e.size, !e.kind.Swap?))
      && ((e.kind.Copy? || e.kind.Swap?) && e.size == 4 ==>
            && (e.dst.bank.GP? ==> e.dst.byte == 0)
            && (e.kind.Swap? && e.src.bank.GP? ==> e.src.byte == 0))
      && (e.kind.Swap? ==> e.clearTo == 0 && !PartialOverlap(e.dst, e.src, e.size))
  }

  /** A four-byte write to a general-purpose register also zeroes its upper half. */
  predicate ZeroExtends(loc: Location, size: int) {
    loc.bank.GP? && size == 4
  }

  /* ---------- What the predicates mean ---------- */

  /** Byte `i` after `loc` is a byte of the machine: of a register, of the frame or of the return area. */
  ghost predicate Exists(loc: Location, i: nat) {
    match loc.bank
    case GP => 0 <= loc.index < 32 && loc.byte + i < 8
    case FP => 0 <= loc.index < 32 && loc.byte + i < 64
    case Frame => loc.byte == 0 && loc.index + i < 0x8000_0000
    case ReturnArea => loc.index == 0 && loc.byte + i < 8
    case Unknown => false
  }

  /** A carrier is one to 64 bytes of the machine in a row; untracked addresses count only where asked for. */
  lemma CarrierMeaning(loc: Location, size: int, unknown: bool)
    ensures ValidCarrier(loc, size, unknown) <==>
            1 <= size <= 64 && if loc.bank.Unknown? then unknown else forall i :: 0 <= i < size ==> Exists(loc, i)
  {
    if size >= 1 && !loc.bank.Unknown? && forall i :: 0 <= i < size ==> Exists(loc, i) {
      assert Exists(loc, size - 1);
    }
  }

  /** Two carriers overlap in part exactly when they differ and share a byte. */
  lemma OverlapMeaning(a: Location, b: Location, size: nat)
    requires ValidCarrier(a, size, false) && ValidCarrier(b, size, false)
    ensures PartialOverlap(a, b, size) <==> a != b && exists at :: a.Covers(size, at) && b.Covers(size, at)
  {
    if PartialOverlap(a, b, size) {
      var first := if a.bank.Frame? then (if a.index < b.index then b else a) else if a.byte < b.byte then b else a;
      assert a.Covers(size, first) && b.Covers(size, first);
    }
  }

  /* ---------- The checks, branch by branch ---------- */

  method FlowLocation(loc: Location, size: int, unknown: bool) returns (ok: bool)
    ensures ok <==> ValidCarrier(loc, size, unknown)
  {
    if size < 1 || size > MAX_CARRIER_BYTES { return false; }
    match loc.bank {
      case GP => ok := loc.index >= 0 && loc.index < 32 && loc.byte + size <= 8;
      case FP => ok := loc.index >= 0 && loc.index < 32 && loc.byte + size <= MAX_CARRIER_BYTES;
      case Frame => ok := loc.byte == 0 && loc.index + size - 1 <= 2147483647;
      case ReturnArea => ok := loc.index == 0 && loc.byte + size <= 8;
      case Unknown => ok := unknown;
    }
  }

  method PartiallyOverlaps(a: Location, b: Location, size: int) returns (ok: bool)
    ensures ok <==> PartialOverlap(a, b, size)
  {
    if a.bank != b.bank || a == b { return false; }
    var x: int, y: int := a.byte, b.byte;
    if a.bank.Frame? {
      x, y := a.index, b.index;
    } else if a.index != b.index {
      return false;
    }
    ok := x < y + size && y < x + size;
  }

  method ReturnAreaEffect(e: Effect) returns (ok: bool)
    ensures ok <==> ReturnAreaEffectValid(e)
  {
    if e.dst != Location(ReturnArea, 0, 0) || e.size != 8 || e.clearTo != 0 { return false; }
    match e.kind {
      case Copy =>
        ok := FlowLocation(e.src, 8, false);
        ok := ok && e.src.bank.GP? && e.src.byte == 0;
      case Kill => ok := e.src == Location(GP, 0, 0);
      case _ => ok := false;
    }
  }

  method MachineEffect(e: Effect) returns (ok: bool)
    ensures ok <==> EffectValid(e)
  {
    if e.dst.bank.ReturnArea? || e.src.bank.ReturnArea? {
      ok := ReturnAreaEffect(e);
      return;
    }
    if e.kind.Call? { return e.size == 0 && e.clearTo == 0; }
    if e.size < 1 || e.size > MAX_CARRIER_BYTES || e.clearTo < 0 || (e.clearTo != 0 && e.clearTo < e.size)
       || (e.kind.Read? && e.clearTo != 0) {
      return false;
    }
    if !e.kind.Read? {
      ok := FlowLocation(e.dst, if e.size < e.clearTo then e.clearTo else e.size, false);
      if !ok { return; }
    }
    if e.kind.Copy? || e.kind.Swap? || e.kind.Read? {
      ok := FlowLocation(e.src, e.size, !e.kind.Swap?);
      if !ok { return; }
    }
    if (e.kind.Copy? || e.kind.Swap?) && e.size == 4
       && ((e.dst.bank.GP? && e.dst.byte != 0) || (e.kind.Swap? && e.src.bank.GP? && e.src.byte != 0)) {
      return false;
    }
    if e.kind.Swap? {
      var partial := PartiallyOverlaps(e.dst, e.src, e.size);
      return e.clearTo == 0 && !partial;
    }
    ok := true;
  }

  /** Inside a carrier, stepping by `i` and taking the offset are inverse to each other. */
  lemma CarrierBytes(loc: Location, size: nat, at: Location)
    requires ValidCarrier(loc, size, false)
    ensures loc.Covers(size, at) <==> exists i :: 0 <= i < size && at == loc.Next(i)
    ensures loc.Covers(size, at) ==> 0 <= loc.Offset(at) < size && loc.Next(loc.Offset(at)) == at
  {
    if loc.Covers(size, at) {
      assert at == loc.Next(loc.Offset(at));
    }
  }

  lemma CarrierStep(loc: Location, size: nat, i: nat)
    requires ValidCarrier(loc, size, false) && i < size
    ensures loc.Covers(size, loc.Next(i)) && loc.Offset(loc.Next(i)) == i
    ensures loc.Next(i).bank == loc.bank
  {
  }
}
