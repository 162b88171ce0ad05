/**
 The encoder of profile/unwind_encode.go.  Decoding its bytes as an independent consumer does
 recovers, at every offset, exactly the source rule, and nothing in a gap.
 */
module UnwindEncoder {
  import opened Options
  import opened Bytes
  import opened Words
  import opened UnwindRules
  import opened CallFrames
  import opened UnwindPrograms
  import F = UnwindFraming

  datatype UnwindInfo = UnwindInfo(frame: seq<Byte>, header: seq<Byte>)

  const MAX_INT32 := 0x7fff_ffff

  /** Addresses below this keep every relative field within 32 signed bits. */
  const FRAME_LIMIT := 0x7fff_fff0

  /** The code size rounded up to a multiple of eight. */
  function AlignedCode(codeSize: nat): nat {
    (codeSize + 7) / 8 * 8
  }

  /* ---------- Records ---------- */

  /** A length field, the content, and padding to a multiple of eight. */
  function RecordBytes(body: seq<Byte>, pad: nat): seq<Byte> {
    LE32(|body| + pad) + body + Zeros(pad)
  }

  /** The record with this body and padding occupies the frame at `off`. */
  ghost predicate RecordAt(frame: seq<Byte>, off: nat, body: seq<Byte>, pad: nat) {
    && off + 4 + |body| + pad <= |frame|
    && |body| + pad < TWO32
    && frame[off..off + 4 + |body| + pad] == RecordBytes(body, pad)
  }

  lemma RecordRead(frame: seq<Byte>, off: nat, body: seq<Byte>, pad: nat)
    requires RecordAt(frame, off, body, pad)
    ensures Record(frame, off) == Some(body + Zeros(pad))
    ensures U32(frame, off) == |body| + pad
  {
    var n := |body| + pad;
    var whole := frame[off..off + 4 + n];
    assert frame[off..off + 4] == whole[..4] == LE32(n);
    U32Slice(frame, off);
    LE32RoundTrip(n);
    assert frame[off + 4..off + 4 + n] == whole[4..] == body + Zeros(pad);
  }

  lemma RecordKept(frame: seq<Byte>, more: seq<Byte>, off: nat, body: seq<Byte>, pad: nat)
    requires RecordAt(frame, off, body, pad)
    ensures RecordAt(frame + more, off, body, pad)
  {
    assert (frame + more)[off..off + 4 + |body| + pad] == frame[off..off + 4 + |body| + pad];
  }

  /** The padding that brings n to a multiple of eight. */
  function Padding(n: nat): nat {
    (8 - n % 8) % 8
  }

  lemma PaddingReached(n: nat, pad: nat)
    requires pad <= Padding(n)
    ensures (n + pad) % 8 == 0 <==> pad == Padding(n)
  {
  }

  lemma PatchLength(dst: seq<Byte>, body: seq<Byte>, pad: nat)
    ensures var r := dst + [0, 0, 0, 0] + body + Zeros(pad);
            && |r| == |dst| + 4 + |body| + pad
            && r[..|dst|] + LE32(|body| + pad) + r[|dst| + 4..] == dst + RecordBytes(body, pad)
  {
    var r := dst + [0, 0, 0, 0] + body + Zeros(pad);
    assert r[..|dst|] == dst;
    assert r[|dst| + 4..] == body + Zeros(pad);
  }

  /** Appends a record and patches its length afterwards. */
  method AppendFrameRecord(dst: seq<Byte>, body: seq<Byte>) returns (r: seq<Byte>)
    ensures r == dst + RecordBytes(body, Padding(|dst| + 4 + |body|)) && |r| % 8 == 0
  {
    hide LE32, Padding, RecordBytes;
    var start := |dst|;
    ghost var n := |dst| + 4 + |body|;
    ghost var pad := 0;
    r := dst + [0, 0, 0, 0] + body;
    assert r == dst + [0, 0, 0, 0] + body + Zeros(0);
    while |r| % 8 != 0
      invariant pad <= Padding(n) && |r| == n + pad
      invariant r == dst + [0, 0, 0, 0] + body + Zeros(pad)
      decreases Padding(n) - pad
    {
      PaddingReached(n, pad);
      assert Zeros(pad) + [0] == Zeros(pad + 1);
      r := r + [0];
      pad := pad + 1;
    }
    PaddingReached(n, pad);
    PatchLength(dst, body, pad);
    r := r[..start] + LE32(|r| - start - 4) + r[start + 4..];
    assert |r| == n + pad by { RecordSize(body, pad); }
  }

  lemma RecordSize(body: seq<Byte>, pad: nat)
    ensures |RecordBytes(body, pad)| == 4 + |body| + pad
  {
  }

  /* ---------- The common entry ---------- */

  const CIE_PAD := 1

  lemma CieSize()
    ensures |CieBody()| == 83
  {
    UndefinedSize(0);
  }

  lemma {:induction false} UndefinedSize(r: nat)
    requires r <= LAST_REGISTER + 1
    ensures |UndefinedFrom(r)| == 2 * (33 - r) - (if r <= RSP then 4 else if r <= RIP then 2 else 0)
    decreases LAST_REGISTER + 1 - r
  {
    if r <= LAST_REGISTER { UndefinedSize(r + 1); }
  }

  lemma CieTailRead(tail: seq<Byte>)
    ensures ParseCieTail([1, 0x78, 16, 1, 0x1b] + tail) == Some(Cie(1, -8, 16, 0x1b, tail))
  {
    hide DecodeULEB, DecodeSLEB;
    var t1 := [0x78, 16, 1, 0x1b] + tail;
    var t2 := [16, 1, 0x1b] + tail;
    var t3 := [1, 0x1b] + tail;
    var t4 := [0x1b] + tail;
    assert [1, 0x78, 16, 1, 0x1b] + tail == [1] + t1 && t1 == [0x78] + t2 && t2[1..] == t3 && t3 == [1] + t4;
    OneByte(1, t1);
    OneByte(0x78, t2);
    OneByte(1, t4);
    assert t4[0] == 0x1b && t4[1..] == tail;
  }

  lemma OneByte(b: Byte, tail: seq<Byte>)
    requires b < 128
    ensures DecodeULEB([b] + tail) == Some((b, tail))
    ensures DecodeSLEB([b] + tail) == Some((if b >= 64 then (b as int) - 128 else b as int, tail))
  {
    assert ([b] + tail)[1..] == tail;
  }

  /** A consumer reads the common entry back. */
  lemma CieRead(frame: seq<Byte>)
    requires RecordAt(frame, 0, CieBody(), CIE_PAD)
    ensures ParseCie(frame, 0) == Some(Cie(1, -8, 16, 0x1b, CieProgram() + Zeros(CIE_PAD)))
  {
    hide CieProgram, RecordAt, Record, ParseCieTail, Zeros;
    RecordRead(frame, 0, CieBody(), CIE_PAD);
    var tail := CieProgram() + Zeros(CIE_PAD);
    var b := CieBody() + Zeros(CIE_PAD);
    assert b == CIE_HEAD + tail;
    assert b[4..8] == [1, 'z' as int, 'R' as int, 0];
    assert b[8..] == [1, 0x78, 16, 1, 0x1b] + tail;
    CieTailRead(tail);
  }

  /* ---------- One FDE ---------- */

  /** The body of the FDE for a contiguous run of rows, at frame offset `off`. */
  function FdeBody(rows: seq<UnwindRange>, off: nat, base: nat): seq<Byte>
    requires RowsOk(rows) && rows != []
  {
    FdeHead(rows[0].offset, rows[|rows| - 1].End(), off, base) + RowsFrom(rows, 0)
  }

  function FdeHead(start: int, end: int, off: nat, base: nat): (r: seq<Byte>)
    ensures |r| == 13
  {
    LE32(off + 4) + LE32(start - (base + off + 8)) + LE32(end - start) + [0]
  }

  /** The FDE for `rows` occupies the frame at `off`, within the reach of its relative pointers. */
  ghost predicate FdeAt(frame: seq<Byte>, base: nat, off: nat, rows: seq<UnwindRange>, pad: nat) {
    && RowsOk(rows) && rows != []
    && RecordAt(frame, off, FdeBody(rows, off, base), pad)
    && base + off + 8 < 0x8000_0000
    && rows[0].offset < rows[|rows| - 1].End() < 0x8000_0000
  }

  lemma HeadRead(start: int, end: int, off: nat, base: nat, tail: seq<Byte>)
    requires 0 <= start <= end < 0x8000_0000 && base + off + 8 < 0x8000_0000
    ensures var b := FdeHead(start, end, off, base) + tail;
            && U32(b, 0) == off + 4 && S32(b, 4) == start - (base + off + 8) && U32(b, 8) == end - start
            && b[12..] == [0] + tail
  {
    var b := FdeHead(start, end, off, base) + tail;
    LE32RoundTrip(off + 4);
    LE32RoundTrip(start - (base + off + 8));
    LE32RoundTrip(end - start);
    U32Slice(b, 0);
    U32Slice(b, 4);
    U32Slice(b, 8);
    assert b[0..4] == LE32(off + 4);
    assert b[4..8] == LE32(start - (base + off + 8));
    assert b[8..12] == LE32(end - start);
  }

  lemma FdeRead(frame: seq<Byte>, base: nat, off: nat, rows: seq<UnwindRange>, pad: nat)
    requires FdeAt(frame, base, off, rows, pad)
    ensures ParseFde(frame, base, off) ==
            Some(Fde(0, rows[0].offset, rows[|rows| - 1].End() - rows[0].offset, RowsFrom(rows, 0) + Zeros(pad)))
  {
    hide RowsFrom, FdeHead, RecordAt, RecordBytes, Record, Zeros;
    var start, end := rows[0].offset, rows[|rows| - 1].End();
    var tail := RowsFrom(rows, 0) + Zeros(pad);
    RecordRead(frame, off, FdeBody(rows, off, base), pad);
    assert FdeBody(rows, off, base) + Zeros(pad) == FdeHead(start, end, off, base) + tail;
    HeadRead(start, end, off, base, tail);
    OneByte(0, tail);
    assert tail[0..] == tail;
  }

  /** Inside its run, the FDE gives the row that contains `pc`; outside, nothing. */
  lemma FdeMeaning(frame: seq<Byte>, base: nat, off: nat, rows: seq<UnwindRange>, pad: nat, pc: int) returns (j: nat)
    requires FdeAt(frame, base, off, rows, pad) && RecordAt(frame, 0, CieBody(), CIE_PAD)
    ensures rows[0].offset <= pc < rows[|rows| - 1].End() ==>
              j < |rows| && rows[j].Contains(pc) && RowFromFde(frame, base, off, pc) == Some(RowOf(rows[j]))
    ensures !(rows[0].offset <= pc < rows[|rows| - 1].End()) ==> RowFromFde(frame, base, off, pc) == None
  {
    hide ParseFde, ParseCie, Execute, RowsFrom, CieBody, CieProgram, Zeros;
    j := 0;
    FdeRead(frame, base, off, rows, pad);
    CieRead(frame);
    ExecuteCie(CIE_PAD);
    if rows[0].offset <= pc < rows[|rows| - 1].End() {
      var initial := Row(RSP, 8, RulesFor(-8));
      assert IsBase(initial);
      j := ExecuteRows(rows, 0, pad, initial, pc);
      LastRowContains(rows, j, pc);
    }
  }

  /* ---------- Sizes ---------- */

  lemma RuleSize(r: UnwindRange)
    requires Encodable(r)
    ensures |RuleBytes(r)| <= 20
  {
    Int64Fits();
    ULEBSize(r.cfaOffset, 9);
    ULEBSize(-r.returnOffset / 8, 9);
  }

  lemma {:induction false} RowsSize(rows: seq<UnwindRange>, k: nat)
    requires RowsOk(rows) && k <= |rows|
    ensures |RowsFrom(rows, k)| <= 25 * (|rows| - k)
    decreases |rows| - k
  {
    if k < |rows| {
      hide RuleBytes;
      RuleSize(rows[k]);
      RowsSize(rows, k + 1);
    }
  }

  /** The program of one run, row after row. */
  method AppendRows(head: seq<Byte>, rows: seq<UnwindRange>) returns (body: seq<Byte>)
    requires RowsOk(rows) && rows != []
    ensures body == head + RowsFrom(rows, 0)
  {
    hide AdvanceBytes, ULEB;
    body := head;
    var pc := rows[0].offset;
    for k := 0 to |rows|
      invariant body + RowsFrom(rows, k) == head + RowsFrom(rows, 0)
      invariant k < |rows| ==> pc == Before(rows, k)
    {
      var r := rows[k];
      ghost var before, rest := body, RowsFrom(rows, k + 1);
      body := body + AdvanceBytes(r.offset - pc);
      body := body + [0x0e];
      body := AppendULEB(body, r.cfaOffset);
      body := body + [0x90];
      body := AppendULEB(body, -r.returnOffset / 8);
      assert body == before + (AdvanceBytes(r.offset - pc) + RuleBytes(r));
      assert body + rest == before + (AdvanceBytes(r.offset - pc) + RuleBytes(r) + rest);
      pc := r.offset;
    }
    assert body + RowsFrom(rows, |rows|) == body;
  }

  /* ---------- All FDEs ---------- */

  datatype Entry = Entry(pc: nat, fde: nat)

  /** A contiguous run of ranges, first inclusive, last exclusive. */
  datatype Group = Group(first: nat, last: nat)

  ghost predicate Tiles(groups: seq<Group>, n: nat) {
    && (groups == [] <==> n == 0)
    && (groups != [] ==> groups[0].first == 0 && groups[|groups| - 1].last == n)
    && (forall j :: 0 <= j < |groups| ==> groups[j].first < groups[j].last <= n)
    && (forall j :: 0 < j < |groups| ==> groups[j - 1].last == groups[j].first)
  }

  function FdePad(rows: seq<UnwindRange>, off: nat, base: nat): nat
    requires RowsOk(rows) && rows != []
  {
    Padding(off + 4 + |FdeBody(rows, off, base)|)
  }

  function FdeEnd(rows: seq<UnwindRange>, off: nat, base: nat): nat
    requires RowsOk(rows) && rows != []
  {
    off + 4 + |FdeBody(rows, off, base)| + FdePad(rows, off, base)
  }

  /** Entry e stands for the FDE of group g. */
  ghost predicate EntryOk(frame: seq<Byte>, base: nat, ranges: seq<UnwindRange>, e: Entry, g: Group) {
    && g.first < g.last <= |ranges|
    && var rows := ranges[g.first..g.last];
       && RowsOk(rows) && e.pc == ranges[g.first].offset
       && FdeAt(frame, base, e.fde, rows, FdePad(rows, e.fde, base))
  }

  /** The frame holds the CIE and one FDE per group, covering the first n ranges. */
  ghost predicate Encoded(frame: seq<Byte>, base: nat, ranges: seq<UnwindRange>, entries: seq<Entry>, groups: seq<Group>, n: nat) {
    && RecordAt(frame, 0, CieBody(), CIE_PAD)
    && |entries| == |groups| && n <= |ranges| && Tiles(groups, n)
    && forall j :: 0 <= j < |entries| ==> EntryOk(frame, base, ranges, entries[j], groups[j])
  }

  lemma EncodedKept(frame: seq<Byte>, more: seq<Byte>, base: nat, ranges: seq<UnwindRange>, entries: seq<Entry>, groups: seq<Group>, n: nat)
    requires Encoded(frame, base, ranges, entries, groups, n)
    ensures Encoded(frame + more, base, ranges, entries, groups, n)
  {
    hide RecordAt, FdeBody, CieBody, FdePad;
    RecordKept(frame, more, 0, CieBody(), CIE_PAD);
    forall j | 0 <= j < |entries| ensures EntryOk(frame + more, base, ranges, entries[j], groups[j]) {
      assert EntryOk(frame, base, ranges, entries[j], groups[j]);
      var rows := ranges[groups[j].first..groups[j].last];
      RecordKept(frame, more, entries[j].fde, FdeBody(rows, entries[j].fde, base), FdePad(rows, entries[j].fde, base));
    }
  }

  /* ---------- The search table ---------- */

  function EntryBytes(entries: seq<Entry>, headerAt: int, frameSize: int): seq<Byte> {
    if entries == [] then []
    else
      var e := entries[|entries| - 1];
      EntryBytes(entries[..|entries| - 1], headerAt, frameSize) + (LE32(e.pc - headerAt) + LE32(e.fde - frameSize))
  }

  function HeaderBytes(entries: seq<Entry>, base: nat, frameSize: nat): seq<Byte> {
    [1, 0x1b, 3, 0x3b] + LE32(-4 - frameSize) + LE32(|entries|) + EntryBytes(entries, base + frameSize, frameSize)
  }

  lemma {:induction false} EntryBytesAt(entries: seq<Entry>, headerAt: int, frameSize: int, i: nat)
    requires i < |entries|
    ensures |EntryBytes(entries, headerAt, frameSize)| == 8 * |entries|
    ensures EntryBytes(entries, headerAt, frameSize)[8 * i..8 * i + 4] == LE32(entries[i].pc - headerAt)
    ensures EntryBytes(entries, headerAt, frameSize)[8 * i + 4..8 * i + 8] == LE32(entries[i].fde - frameSize)
  {
    hide LE32;
    var init := entries[..|entries| - 1];
    var e := entries[|entries| - 1];
    var b := EntryBytes(init, headerAt, frameSize);
    if i < |init| {
      EntryBytesAt(init, headerAt, frameSize, i);
      assert EntryBytes(entries, headerAt, frameSize)[8 * i..8 * i + 4] == b[8 * i..8 * i + 4];
      assert EntryBytes(entries, headerAt, frameSize)[8 * i + 4..8 * i + 8] == b[8 * i + 4..8 * i + 8];
    } else {
      EntryBytesSize(init, headerAt, frameSize);
      assert EntryBytes(entries, headerAt, frameSize) == b + LE32(e.pc - headerAt) + LE32(e.fde - frameSize);
    }
  }

  lemma {:induction false} EntryBytesSize(entries: seq<Entry>, headerAt: int, frameSize: int)
    ensures |EntryBytes(entries, headerAt, frameSize)| == 8 * |entries|
  {
    if entries != [] { EntryBytesSize(entries[..|entries| - 1], headerAt, frameSize); }
  }

  lemma HeaderRead(entries: seq<Entry>, base: nat, frameSize: nat)
    requires base + frameSize < FRAME_LIMIT && |entries| < FRAME_LIMIT
    ensures var h := HeaderBytes(entries, base, frameSize);
            && |h| == 12 + 8 * |entries| && h[..4] == [1, 0x1b, 3, 0x3b]
            && S32(h, 4) == -4 - frameSize && U32(h, 8) == |entries|
  {
    hide EntryBytes;
    var h := HeaderBytes(entries, base, frameSize);
    EntryBytesSize(entries, base + frameSize, frameSize);
    LE32RoundTrip(-4 - frameSize);
    LE32RoundTrip(|entries|);
    assert h[4..8] == LE32(-4 - frameSize);
    assert h[8..12] == LE32(|entries|);
    U32Slice(h, 4);
    U32Slice(h, 8);
  }

  lemma EntryRead(entries: seq<Entry>, base: nat, frameSize: nat, i: nat)
    requires base + frameSize < FRAME_LIMIT && i < |entries| && entries[i].pc < 0x8000_0000 && entries[i].fde < 0x8000_0000
    ensures var h := HeaderBytes(entries, base, frameSize);
            && |h| == 12 + 8 * |entries|
            && S32(h, 12 + 8 * i) == entries[i].pc - (base + frameSize)
            && S32(h, 16 + 8 * i) == entries[i].fde - frameSize
  {
    hide EntryBytes, LE32, S32, U32;
    var h := HeaderBytes(entries, base, frameSize);
    var b := EntryBytes(entries, base + frameSize, frameSize);
    var head := [1, 0x1b, 3, 0x3b] + LE32(-4 - frameSize) + LE32(|entries|);
    assert h == head + b && |head| == 12;
    EntryBytesAt(entries, base + frameSize, frameSize, i);
    assert h[12 + 8 * i..16 + 8 * i] == b[8 * i..8 * i + 4];
    assert h[16 + 8 * i..20 + 8 * i] == b[8 * i + 4..8 * i + 8];
    U32Slice(h, 12 + 8 * i);
    U32Slice(h, 16 + 8 * i);
    LE32RoundTrip(entries[i].pc - (base + frameSize));
    LE32RoundTrip(entries[i].fde - frameSize);
  }

  /* ---------- Meaning of the whole table ---------- */

  function RowOption(r: Option<UnwindRange>): Option<Row> {
    match r
    case None => None
    case Some(x) => Some(RowOf(x))
  }

  /** At every offset the consumer computes the row of the source rule, and no row where there is none. */
  ghost predicate Recovers(info: UnwindInfo, base: nat, ranges: seq<UnwindRange>) {
    forall pc: int, r :: RuleAt(ranges, pc, r) ==> Unwind(info.frame, info.header, base, pc) == RowOption(r)
  }

  lemma {:induction false} GroupOf(groups: seq<Group>, n: nat, i: nat) returns (j: nat)
    requires Tiles(groups, n) && i < n
    ensures j < |groups| && groups[j].first <= i < groups[j].last
  {
    j := 0;
    while groups[j].last <= i
      invariant j < |groups| && groups[j].first <= i
      decreases |groups| - j
    {
      j := j + 1;
    }
  }

  /** Later groups start at or after the end of earlier ones. */
  lemma {:induction false} GroupsOrdered(groups: seq<Group>, n: nat, a: nat, b: nat)
    requires Tiles(groups, n) && a < b < |groups|
    ensures groups[a].last <= groups[b].first
    decreases b
  {
    if a < b - 1 { GroupsOrdered(groups, n, a, b - 1); }
  }

  /** The search stops at entry i when it is the last that starts at or before pc. */
  lemma {:induction false} LastEntryIs(entries: seq<Entry>, base: nat, frameSize: nat, n: nat, pc: int, i: int)
    requires base + frameSize < FRAME_LIMIT && n <= |entries| && -1 <= i < n
    requires forall k :: 0 <= k < |entries| ==> entries[k].pc < 0x8000_0000 && entries[k].fde < 0x8000_0000
    requires i >= 0 ==> entries[i].pc <= pc
    requires forall k :: i < k < n ==> entries[k].pc > pc
    ensures |HeaderBytes(entries, base, frameSize)| == 12 + 8 * |entries|
    ensures LastEntry(HeaderBytes(entries, base, frameSize), base + frameSize, n, pc) == if i < 0 then None else Some(i)
  {
    hide HeaderBytes;
    assert |HeaderBytes(entries, base, frameSize)| == 12 + 8 * |entries| by { HeaderSize(entries, base, frameSize); }
    if n > 0 {
      EntryRead(entries, base, frameSize, n - 1);
      if i < n - 1 { LastEntryIs(entries, base, frameSize, n - 1, pc, i); }
    }
  }

  lemma HeaderSize(entries: seq<Entry>, base: nat, frameSize: nat)
    ensures |HeaderBytes(entries, base, frameSize)| == 12 + 8 * |entries|
    ensures HeaderBytes(entries, base, frameSize)[0] == 1
  {
    EntryBytesSize(entries, base + frameSize, frameSize);
  }

  /** What makes a finished table readable. */
  ghost predicate Finished(frame: seq<Byte>, base: nat, ranges: seq<UnwindRange>, size: UInt64, entries: seq<Entry>, groups: seq<Group>) {
    && DirectoryValid(ranges, size) && size < 0x8000_0000
    && Encoded(frame, base, ranges, entries, groups, |ranges|)
    && base + |frame| < FRAME_LIMIT && |entries| < FRAME_LIMIT
  }

  lemma FinishedBasics(frame: seq<Byte>, base: nat, ranges: seq<UnwindRange>, size: UInt64, entries: seq<Entry>, groups: seq<Group>)
    requires Finished(frame, base, ranges, size, entries, groups)
    ensures |entries| == |groups| && Tiles(groups, |ranges|)
    ensures RecordAt(frame, 0, CieBody(), CIE_PAD)
  {
  }

  lemma FinishedEntry(frame: seq<Byte>, base: nat, ranges: seq<UnwindRange>, size: UInt64, entries: seq<Entry>, groups: seq<Group>, j: nat)
    requires Finished(frame, base, ranges, size, entries, groups) && j < |entries|
    ensures EntryOk(frame, base, ranges, entries[j], groups[j])
    ensures |entries| == |groups| && groups[j].first < groups[j].last <= |ranges|
    ensures entries[j].pc == ranges[groups[j].first].offset < 0x8000_0000 && entries[j].fde < 0x8000_0000
  {
    hide FdeAt, RecordAt;
    assert entries[j].fde < 0x8000_0000 by { EntryOffset(frame, base, ranges, entries[j], groups[j]); }
    assert RangeValid(ranges[groups[j].first], size);
  }

  lemma EntryOffset(frame: seq<Byte>, base: nat, ranges: seq<UnwindRange>, e: Entry, g: Group)
    requires EntryOk(frame, base, ranges, e, g)
    ensures e.fde < 0x8000_0000
  {
  }

  /** The entry whose run starts last at or before pc, or -1. */
  lemma FindEntry(entries: seq<Entry>, pc: int) returns (i: int)
    ensures -1 <= i < |entries|
    ensures i >= 0 ==> entries[i].pc <= pc
    ensures forall k :: i < k < |entries| ==> entries[k].pc > pc
  {
    i := |entries| - 1;
    while i >= 0 && entries[i].pc > pc
      invariant -1 <= i < |entries|
      invariant forall k :: i < k < |entries| ==> entries[k].pc > pc
    {
      i := i - 1;
    }
  }

  /** A contained pc lies in the run that the search finds. */
  lemma ContainedIsFound(frame: seq<Byte>, base: nat, ranges: seq<UnwindRange>, size: UInt64, entries: seq<Entry>, groups: seq<Group>, pc: int, i: int, m: nat)
    requires Finished(frame, base, ranges, size, entries, groups)
    requires -1 <= i < |entries| && (i >= 0 ==> entries[i].pc <= pc) && forall k :: i < k < |entries| ==> entries[k].pc > pc
    requires m < |ranges| && ranges[m].Contains(pc)
    ensures i >= 0 && |entries| == |groups| && groups[i].first <= m < groups[i].last <= |ranges|
  {
    hide Encoded, EntryOk, RecordAt, DirectoryValid, Tiles;
    FinishedBasics(frame, base, ranges, size, entries, groups);
    var j := GroupOf(groups, |ranges|, m);
    FinishedEntry(frame, base, ranges, size, entries, groups, j);
    SameGroup(ranges, size, groups, pc, m, j);
    assert j <= i;
    if j < i {
      FinishedEntry(frame, base, ranges, size, entries, groups, i);
      GroupsOrdered(groups, |ranges|, j, i);
      DirectoryOrdered(ranges, size, m, groups[i].first);
    }
  }

  /** A pc contained in one range of a run lies within the run. */
  lemma SameGroup(ranges: seq<UnwindRange>, size: UInt64, groups: seq<Group>, pc: int, m: nat, j: nat)
    requires DirectoryValid(ranges, size) && m < |ranges| && ranges[m].Contains(pc)
    requires j < |groups| && groups[j].first <= m < groups[j].last <= |ranges|
    ensures ranges[groups[j].first].offset <= pc < ranges[groups[j].last - 1].End()
  {
    if groups[j].first < m { DirectoryOrdered(ranges, size, groups[j].first, m); }
    if m < groups[j].last - 1 { DirectoryOrdered(ranges, size, m, groups[j].last - 1); }
  }

  lemma UnwindAt(frame: seq<Byte>, base: nat, ranges: seq<UnwindRange>, size: UInt64, entries: seq<Entry>, groups: seq<Group>, pc: int, i: int)
    requires Finished(frame, base, ranges, size, entries, groups)
    requires -1 <= i < |entries| && (i >= 0 ==> entries[i].pc <= pc) && forall k :: i < k < |entries| ==> entries[k].pc > pc
    ensures Unwind(frame, HeaderBytes(entries, base, |frame|), base, pc) ==
            if i < 0 then None else RowFromFde(frame, base, entries[i].fde, pc)
  {
    hide HeaderBytes, RowFromFde, Encoded, S32, U32, LastEntry, DirectoryValid;
    HeaderRead(entries, base, |frame|);
    forall k | 0 <= k < |entries| ensures entries[k].pc < 0x8000_0000 && entries[k].fde < 0x8000_0000 {
      FinishedEntry(frame, base, ranges, size, entries, groups, k);
    }
    LastEntryIs(entries, base, |frame|, |entries|, pc, i);
    if i >= 0 { EntryRead(entries, base, |frame|, i); }
  }

  /** What an entry's FDE says, in terms of the ranges of its run. */
  lemma EntryMeaning(frame: seq<Byte>, base: nat, ranges: seq<UnwindRange>, e: Entry, g: Group, pc: int) returns (r: Option<UnwindRange>)
    requires EntryOk(frame, base, ranges, e, g) && RecordAt(frame, 0, CieBody(), CIE_PAD)
    ensures RowFromFde(frame, base, e.fde, pc) == RowOption(r)
    ensures r.Some? ==> RuleAt(ranges, pc, r)
    ensures r.None? ==> !(ranges[g.first].offset <= pc < ranges[g.last - 1].End())
  {
    hide RowFromFde, RecordAt, FdeAt, FdePad, RowsOk, CieBody;
    var rows := ranges[g.first..g.last];
    assert rows[|rows| - 1] == ranges[g.last - 1] && rows[0] == ranges[g.first];
    var j := FdeMeaning(frame, base, e.fde, rows, FdePad(rows, e.fde, base), pc);
    if rows[0].offset <= pc < rows[|rows| - 1].End() {
      assert rows[j] == ranges[g.first + j];
      r := Some(rows[j]);
    } else {
      r := None;
    }
  }

  lemma TableMeaning(frame: seq<Byte>, base: nat, ranges: seq<UnwindRange>, size: UInt64, entries: seq<Entry>, groups: seq<Group>, pc: int, r: Option<UnwindRange>)
    requires Finished(frame, base, ranges, size, entries, groups) && RuleAt(ranges, pc, r)
    ensures Unwind(frame, HeaderBytes(entries, base, |frame|), base, pc) == RowOption(r)
  {
    hide Unwind, HeaderBytes, RowFromFde, Encoded, DirectoryValid, EntryOk, RecordAt, Tiles, CieBody;
    var i := FindEntry(entries, pc);
    UnwindAt(frame, base, ranges, size, entries, groups, pc, i);
    if i >= 0 {
      FinishedBasics(frame, base, ranges, size, entries, groups);
      FinishedEntry(frame, base, ranges, size, entries, groups, i);
      var q := EntryMeaning(frame, base, ranges, entries[i], groups[i], pc);
      if q.Some? { RuleUnique(ranges, size, pc, r, q); }
    }
    if r.Some? {
      var m :| 0 <= m < |ranges| && ranges[m] == r.value;
      ContainedIsFound(frame, base, ranges, size, entries, groups, pc, i, m);
      SameGroup(ranges, size, groups, pc, m, i);
    }
  }

  lemma TableRecovers(frame: seq<Byte>, base: nat, ranges: seq<UnwindRange>, size: UInt64, entries: seq<Entry>, groups: seq<Group>)
    requires Finished(frame, base, ranges, size, entries, groups)
    ensures Recovers(UnwindInfo(frame, HeaderBytes(entries, base, |frame|)), base, ranges)
  {
    hide Finished, Unwind, HeaderBytes, RuleAt;
    forall pc: int, r | RuleAt(ranges, pc, r)
      ensures Unwind(frame, HeaderBytes(entries, base, |frame|), base, pc) == RowOption(r)
    {
      TableMeaning(frame, base, ranges, size, entries, groups, pc, r);
    }
  }

  /* ---------- Building the frame ---------- */

  method BuildCie() returns (cie: seq<Byte>)
    ensures cie == CieBody()
  {
    hide UndefinedFrom;
    cie := CIE_HEAD + CIE_RULES;
    assert cie + UndefinedFrom(0) == CieBody();
    hide CieBody;
    for reg := 0 to LAST_REGISTER + 1
      invariant cie + UndefinedFrom(reg) == CieBody()
    {
      UndefinedUnfold(reg, []);
      assert UndefinedFrom(reg) + [] == UndefinedFrom(reg) && UndefinedFrom(reg + 1) + [] == UndefinedFrom(reg + 1);
      if reg != RSP && reg != RIP {
        assert cie + ([0x07] + ULEB(reg) + UndefinedFrom(reg + 1)) == (cie + [0x07, reg]) + UndefinedFrom(reg + 1);
        cie := cie + [0x07, reg];
      }
    }
    UndefinedEnds(LAST_REGISTER + 1);
  }

  /** Overwrites four bytes. */
  function Put32(b: seq<Byte>, at: nat, v: int): (r: seq<Byte>)
    requires at + 4 <= |b|
    ensures |r| == |b|
  {
    b[..at] + LE32(v) + b[at + 4..]
  }

  lemma PutHead(start: int, end: int, off: nat, base: nat)
    ensures Put32(Put32(Put32(Zeros(13), 0, off + 4), 4, start - (base + off + 8)), 8, end - start) == FdeHead(start, end, off, base)
  {
    hide LE32;
    var b1 := Put32(Zeros(13), 0, off + 4);
    assert b1 == LE32(off + 4) + Zeros(9);
    var b2 := Put32(b1, 4, start - (base + off + 8));
    assert b2 == LE32(off + 4) + LE32(start - (base + off + 8)) + Zeros(5);
    var b3 := Put32(b2, 8, end - start);
    assert b3 == LE32(off + 4) + LE32(start - (base + off + 8)) + LE32(end - start) + Zeros(1);
    assert Zeros(1) == [0];
  }

  /** Appends the FDE of one contiguous run. */
  method AppendFde(frame: seq<Byte>, base: nat, rows: seq<UnwindRange>) returns (r: seq<Byte>)
    requires RowsOk(rows) && rows != []
    ensures r == frame + RecordBytes(FdeBody(rows, |frame|, base), FdePad(rows, |frame|, base)) && |r| % 8 == 0
    ensures |r| == FdeEnd(rows, |frame|, base)
    ensures |r| <= |frame| + 24 + 25 * |rows|
  {
    hide RowsFrom, LE32, FdeHead, RecordBytes, Put32, Zeros;
    var start, end := rows[0].offset, rows[|rows| - 1].End();
    var body := Zeros(13);
    PutHead(start, end, |frame|, base);
    assert |Zeros(13)| == 13 by { ZerosSize(13); }
    body := Put32(body, 0, |frame| + 4);
    body := Put32(body, 4, start - (base + |frame| + 8));
    body := Put32(body, 8, end - start);
    body := AppendRows(body, rows);
    RowsSize(rows, 0);
    r := AppendFrameRecord(frame, body);
    RecordSize(body, FdePad(rows, |frame|, base));
  }

  lemma ZerosSize(n: nat)
    ensures |Zeros(n)| == n
  {
  }

  ghost predicate GroupOk(ranges: seq<UnwindRange>, g: Group) {
    g.first < g.last <= |ranges| && RowsOk(ranges[g.first..g.last])
  }

  /** The record of entry j ends where the next one, or the rest of the frame, starts. */
  ghost predicate Linked(end: nat, base: nat, ranges: seq<UnwindRange>, entries: seq<Entry>, groups: seq<Group>, j: nat)
    requires j < |entries| == |groups| && GroupOk(ranges, groups[j])
  {
    FdeEnd(ranges[groups[j].first..groups[j].last], entries[j].fde, base) == if j + 1 < |entries| then entries[j + 1].fde else end
  }

  /** Records follow one another from the CIE to the end of the frame. */
  ghost predicate Chained(end: nat, base: nat, ranges: seq<UnwindRange>, entries: seq<Entry>, groups: seq<Group>) {
    && |entries| == |groups|
    && (forall j :: 0 <= j < |groups| ==> GroupOk(ranges, groups[j]))
    && (entries == [] ==> end == 88)
    && (entries != [] ==> entries[0].fde == 88)
    && (forall j :: 0 <= j < |entries| ==> Linked(end, base, ranges, entries, groups, j))
  }

  lemma EncodedPush(
    frame: seq<Byte>, base: nat, ranges: seq<UnwindRange>, entries: seq<Entry>, groups: seq<Group>, n: nat,
    frame': seq<Byte>, last: nat, rows: seq<UnwindRange>)
    requires n < last <= |ranges| && rows == ranges[n..last] && RowsOk(rows) && rows != []
    requires frame' == frame + RecordBytes(FdeBody(rows, |frame|, base), FdePad(rows, |frame|, base))
    requires base + |frame'| < FRAME_LIMIT && ranges[last - 1].End() < 0x8000_0000
    requires Encoded(frame, base, ranges, entries, groups, n)
    ensures Encoded(frame', base, ranges, entries + [Entry(ranges[n].offset, |frame|)], groups + [Group(n, last)], last)
  {
    hide FdeBody, FdePad, CieBody;
    var body, pad := FdeBody(rows, |frame|, base), FdePad(rows, |frame|, base);
    EncodedKept(frame, RecordBytes(body, pad), base, ranges, entries, groups, n);
    RecordSize(body, pad);
    assert frame'[|frame|..] == RecordBytes(body, pad);
    assert rows[|rows| - 1] == ranges[last - 1] && rows[0] == ranges[n];
    RunIsForward(rows);
    assert RecordAt(frame', |frame|, body, pad);
    assert EntryOk(frame', base, ranges, Entry(ranges[n].offset, |frame|), Group(n, last));
  }

  lemma {:induction false} RunIsForward(rows: seq<UnwindRange>)
    requires RowsOk(rows) && rows != []
    ensures rows[0].offset < rows[|rows| - 1].End()
  {
    if |rows| > 1 {
      var init := rows[..|rows| - 1];
      RunIsForward(init);
      assert init[|init| - 1] == rows[|rows| - 2];
    }
  }

  lemma ChainedPush(end: nat, base: nat, ranges: seq<UnwindRange>, entries: seq<Entry>, groups: seq<Group>, n: nat, last: nat)
    requires Chained(end, base, ranges, entries, groups) && n < last <= |ranges| && RowsOk(ranges[n..last])
    ensures Chained(FdeEnd(ranges[n..last], end, base), base, ranges, entries + [Entry(ranges[n].offset, end)], groups + [Group(n, last)])
  {
    hide FdeEnd, RowsOk;
    var entries', groups' := entries + [Entry(ranges[n].offset, end)], groups + [Group(n, last)];
    var end' := FdeEnd(ranges[n..last], end, base);
    forall j | 0 <= j < |groups'| ensures GroupOk(ranges, groups'[j]) {
      if j < |groups| { assert groups'[j] == groups[j]; }
    }
    forall j | 0 <= j < |entries'| ensures Linked(end', base, ranges, entries', groups', j) {
      if j < |entries| {
        assert groups'[j] == groups[j] && entries'[j] == entries[j];
        assert Linked(end, base, ranges, entries, groups, j);
        if j + 1 < |entries| { assert entries'[j + 1] == entries[j + 1]; }
      }
    }
  }

  /* ---------- The encoder ---------- */

  /** Exactly the inputs that the encoder accepts. */
  predicate Acceptable(codeSize: UInt64, ranges: seq<UnwindRange>) {
    && 0 < codeSize <= MAX_INT32 - 256 && ranges != []
    && DirectoryValid(ranges, codeSize)
    && (forall i :: 0 <= i < |ranges| ==> ranges[i].cfaRegister == RSP && ranges[i].returnOffset % 8 == 0)
    && |ranges| <= (MAX_INT32 - 256 - codeSize) / 64
  }

  /** The end of the contiguous run that starts at `first`. */
  method RunEnd(ranges: seq<UnwindRange>, first: nat, ghost codeSize: UInt64) returns (last: nat)
    requires Acceptable(codeSize, ranges) && first < |ranges|
    ensures first < last <= |ranges| && RowsOk(ranges[first..last]) && ranges[last - 1].End() <= codeSize
  {
    last := first + 1;
    while last < |ranges| && ranges[last - 1].End() == ranges[last].offset
      invariant first < last <= |ranges|
      invariant forall i :: first < i < last ==> ranges[i - 1].End() == ranges[i].offset
    {
      last := last + 1;
    }
    var rows := ranges[first..last];
    forall i | 0 <= i < |rows| ensures Encodable(rows[i]) && rows[i].size > 0 && rows[i].offset < 0x8000_0000 {
      assert RangeValid(ranges[first + i], codeSize);
    }
    assert RangeValid(ranges[last - 1], codeSize);
  }

  method BuildFrame(codeSize: UInt64, ranges: seq<UnwindRange>, base: nat) returns (frame: seq<Byte>, entries: seq<Entry>, ghost groups: seq<Group>)
    requires Acceptable(codeSize, ranges) && base == AlignedCode(codeSize)
    ensures Encoded(frame, base, ranges, entries, groups, |ranges|) && Chained(|frame|, base, ranges, entries, groups)
    ensures |frame| + 8 * |entries| <= 88 + 64 * |ranges|
  {
    hide FdeBody, FdePad, FdeEnd, RecordBytes, CieBody;
    var cie := BuildCie();
    CieSize();
    frame := AppendFrameRecord([], cie);
    assert [] + RecordBytes(CieBody(), CIE_PAD) == RecordBytes(CieBody(), CIE_PAD);
    RecordSize(CieBody(), CIE_PAD);
    assert frame[0..88] == frame;
    entries, groups := [], [];
    var first := 0;
    while first < |ranges|
      invariant 0 <= first <= |ranges|
      invariant Encoded(frame, base, ranges, entries, groups, first) && Chained(|frame|, base, ranges, entries, groups)
      invariant |frame| + 8 * |entries| <= 88 + 64 * first
    {
      hide Encoded, Chained, RowsOk;
      var last := RunEnd(ranges, first, codeSize);
      var fdeAt := |frame|;
      var next := AppendFde(frame, base, ranges[first..last]);
      EncodedPush(frame, base, ranges, entries, groups, first, next, last, ranges[first..last]);
      ChainedPush(fdeAt, base, ranges, entries, groups, first, last);
      frame := next;
      entries := entries + [Entry(ranges[first].offset, fdeAt)];
      groups := groups + [Group(first, last)];
      first := last;
    }
  }

  method BuildHeader(entries: seq<Entry>, base: nat, frameSize: nat) returns (header: seq<Byte>)
    ensures header == HeaderBytes(entries, base, frameSize)
  {
    hide LE32;
    header := [1, 0x1b, 3, 0x3b] + LE32(-4 - frameSize) + LE32(|entries|);
    ghost var head := header;
    for i := 0 to |entries|
      invariant header == head + EntryBytes(entries[..i], base + frameSize, frameSize)
    {
      assert entries[..i + 1][..i] == entries[..i];
      header := header + LE32(entries[i].pc - base - frameSize) + LE32(entries[i].fde - frameSize);
      assert entries[i].pc - base - frameSize == entries[i].pc - (base + frameSize);
    }
    assert entries[..|entries|] == entries;
  }

  /* ---------- Framing of the result ---------- */

  lemma RecordLink(frame: seq<Byte>, off: nat, body: seq<Byte>, pad: nat)
    requires RecordAt(frame, off, body, pad) && |body| >= 4
    ensures U32(frame, off + 4) == U32(body, 0)
  {
    hide LE32, Zeros;
    var n := |body| + pad;
    var whole := frame[off..off + 4 + n];
    assert whole == LE32(n) + (body + Zeros(pad));
    assert whole[4..8] == body[0..4];
    assert frame[off + 4..off + 8] == whole[4..8];
    U32Slice(frame, off + 4);
    U32Slice(body, 0);
  }

  lemma CieFramed(frame: seq<Byte>)
    requires RecordAt(frame, 0, CieBody(), CIE_PAD)
    ensures F.RecordAt(frame, 0) && F.EndOf(frame, 0) == 88 && F.LinkOf(frame, 0) == 0
  {
    hide CieBody, RecordAt, U32;
    CieStart();
    RecordFits(frame, 0, CieBody(), CIE_PAD);
    RecordRead(frame, 0, CieBody(), CIE_PAD);
    RecordLink(frame, 0, CieBody(), CIE_PAD);
  }

  lemma RecordFits(frame: seq<Byte>, off: nat, body: seq<Byte>, pad: nat)
    requires RecordAt(frame, off, body, pad)
    ensures off + 4 + |body| + pad <= |frame|
  {
  }

  lemma CieStart()
    ensures |CieBody()| == 83 && U32(CieBody(), 0) == 0
  {
    CieSize();
    hide UndefinedFrom;
  }

  lemma FdeFramed(frame: seq<Byte>, base: nat, ranges: seq<UnwindRange>, e: Entry, g: Group)
    requires EntryOk(frame, base, ranges, e, g) && |frame| < FRAME_LIMIT
    ensures F.RecordAt(frame, e.fde) && F.LinkOf(frame, e.fde) == e.fde + 4
    ensures F.EndOf(frame, e.fde) == FdeEnd(ranges[g.first..g.last], e.fde, base)
  {
    hide RowsFrom, FdeHead, RecordBytes, U32;
    var rows := ranges[g.first..g.last];
    var body, pad := FdeBody(rows, e.fde, base), FdePad(rows, e.fde, base);
    RecordRead(frame, e.fde, body, pad);
    RecordLink(frame, e.fde, body, pad);
    HeadRead(rows[0].offset, rows[|rows| - 1].End(), e.fde, base, RowsFrom(rows, 0));
  }

  /** Where the records start: the CIE, then the FDE of every entry. */
  function Offsets(entries: seq<Entry>): seq<nat> {
    seq(|entries| + 1, i requires 0 <= i <= |entries| => if i == 0 then 0 else entries[i - 1].fde)
  }

  /** The record in position `i` of the list, its end and its link. */
  ghost predicate FramedAt(frame: seq<Byte>, end: nat, entries: seq<Entry>, i: nat)
    requires i <= |entries|
  {
    var offs := Offsets(entries);
    && F.RecordAt(frame, offs[i])
    && F.EndOf(frame, offs[i]) == (if i < |entries| then offs[i + 1] else end)
    && F.LinkOf(frame, offs[i]) == if i == 0 then 0 else offs[i] + 4
  }

  lemma EncodedFramedAt(
    frame: seq<Byte>, end: nat, base: nat, ranges: seq<UnwindRange>, entries: seq<Entry>, groups: seq<Group>, i: nat)
    requires Encoded(frame, base, ranges, entries, groups, |ranges|) && Chained(end, base, ranges, entries, groups)
    requires |frame| < FRAME_LIMIT && i <= |entries|
    ensures FramedAt(frame, end, entries, i)
  {
    hide RecordAt, CieBody, FdeEnd, EntryOk, F.RecordAt, F.EndOf, F.LinkOf;
    if i == 0 {
      CieFramed(frame);
    } else {
      assert EntryOk(frame, base, ranges, entries[i - 1], groups[i - 1]);
      assert Linked(end, base, ranges, entries, groups, i - 1);
      FdeFramed(frame, base, ranges, entries[i - 1], groups[i - 1]);
    }
  }

  lemma FramedTiles(frame: seq<Byte>, end: nat, entries: seq<Entry>)
    requires forall i :: 0 <= i <= |entries| ==> FramedAt(frame, end, entries, i)
    ensures F.Tiling(frame, Offsets(entries)) && F.Stop(frame, Offsets(entries)) == end && F.Linked(frame, Offsets(entries))
    ensures entries != [] ==> F.HasFde(frame, Offsets(entries))
  {
    hide F.RecordAt, F.EndOf, F.LinkOf;
    var offs := Offsets(entries);
    forall i | 0 <= i < |offs| ensures F.RecordAt(frame, offs[i]) { assert FramedAt(frame, end, entries, i); }
    forall i | 0 < i < |offs| ensures offs[i] == F.EndOf(frame, offs[i - 1]) { assert FramedAt(frame, end, entries, i - 1); }
    assert FramedAt(frame, end, entries, |entries|) && FramedAt(frame, end, entries, 0);
    forall i | 0 <= i < |offs| && F.LinkOf(frame, offs[i]) != 0 ensures F.LinksBack(frame, offs, i) {
      assert FramedAt(frame, end, entries, i);
      assert offs[0] == offs[i] + 4 - F.LinkOf(frame, offs[i]);
    }
    if entries != [] {
      assert FramedAt(frame, end, entries, 1);
      assert F.LinkOf(frame, offs[1]) != 0;
    }
  }

  /** The walk accepts the encoder's section, and finds in it the CIE and exactly the entries' FDEs. */
  lemma EncodedIsWellFramed(
    frame: seq<Byte>, end: nat, base: nat, ranges: seq<UnwindRange>, entries: seq<Entry>, groups: seq<Group>)
    requires Encoded(frame, base, ranges, entries, groups, |ranges|) && Chained(end, base, ranges, entries, groups)
    requires end + 8 == |frame| && frame[end..] == Zeros(8) && ranges != []
    requires base + |frame| < FRAME_LIMIT && |frame| + 8 * |entries| < FRAME_LIMIT
    ensures F.Framing(frame, Offsets(entries)) && F.HeaderOk(frame, HeaderBytes(entries, base, |frame|), 0)
  {
    hide FramedAt, Chained, RecordAt, EntryOk, Offsets, F.Tiling, F.Linked, F.HasFde, F.Stop, HeaderBytes;
    forall i | 0 <= i <= |entries| ensures FramedAt(frame, end, entries, i) {
      EncodedFramedAt(frame, end, base, ranges, entries, groups, i);
    }
    FramedTiles(frame, end, entries);
    forall i | end <= i < |frame| ensures frame[i] == 0 {
      assert frame[i] == frame[end..][i - end];
    }
    HeaderSize(entries, base, |frame|);
  }

  /**
   Encodes a directory.  Accepted inputs yield tables that fit their 32-bit fields, pass the
   framing check, and from which a consumer recovers exactly the source rules.
   */
  method EncodeAMD64Unwind(codeSize: UInt64, ranges: seq<UnwindRange>) returns (r: Option<UnwindInfo>)
    ensures r.Some? <==> Acceptable(codeSize, ranges)
    ensures r.Some? ==> Recovers(r.value, AlignedCode(codeSize), ranges)
    ensures r.Some? ==> F.HeaderOk(r.value.frame, r.value.header, 0) && exists offs :: F.Framing(r.value.frame, offs)
    ensures r.Some? ==> |r.value.frame| + |r.value.header| <= 256 + 64 * |ranges|
    ensures r.Some? ==> AlignedCode(codeSize) + |r.value.frame| + |r.value.header| <= MAX_INT32
  {
    hide Encoded, Chained, DirectoryValid, HeaderBytes, Recovers, F.HeaderOk, F.Framing;
    if codeSize == 0 || codeSize > MAX_INT32 - 256 || |ranges| == 0 { return None; }
    var ok := ValidateUnwind(ranges, codeSize);
    if !ok { return None; }
    for i := 0 to |ranges|
      invariant forall j :: 0 <= j < i ==> ranges[j].cfaRegister == RSP && ranges[j].returnOffset % 8 == 0
    {
      if ranges[i].cfaRegister != RSP || ranges[i].returnOffset % 8 != 0 { return None; }
    }
    if |ranges| > (MAX_INT32 - 256 - codeSize) / 64 { return None; }
    var base := (codeSize + 7) / 8 * 8;
    ghost var groups;
    var frame, entries;
    frame, entries, groups := BuildFrame(codeSize, ranges, base);
    ghost var end := |frame|;
    EncodedKept(frame, Zeros(8), base, ranges, entries, groups, |ranges|);
    ZerosSize(8);
    frame := frame + Zeros(8);
    assert frame[end..] == Zeros(8);
    var header := BuildHeader(entries, base, |frame|);
    HeaderSize(entries, base, |frame|);
    SizesFit(codeSize, |ranges|, base, |frame|, |entries|);
    TableRecovers(frame, base, ranges, codeSize, entries, groups);
    EncodedIsWellFramed(frame, end, base, ranges, entries, groups);
    r := Some(UnwindInfo(frame, header));
  }

  lemma SizesFit(codeSize: UInt64, n: nat, base: nat, frameSize: nat, entries: nat)
    requires codeSize <= MAX_INT32 - 256 && n <= (MAX_INT32 - 256 - codeSize) / 64 && base == AlignedCode(codeSize)
    requires frameSize + 8 * entries <= 96 + 64 * n
    ensures base + frameSize < FRAME_LIMIT && frameSize + 8 * entries < FRAME_LIMIT && entries < FRAME_LIMIT
    ensures frameSize + 12 + 8 * entries <= 256 + 64 * n
    ensures base + frameSize + 12 + 8 * entries <= MAX_INT32
  {
    assert 64 * n <= MAX_INT32 - 256 - codeSize;
  }
}
