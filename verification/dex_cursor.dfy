/** The checked DEX instruction cursor: the simple walk of one code item, the C step that
    every scanner shares, and the sparse, resumable, chunked scan built on that step. */
module DexCursor {
  import opened Bytes

  /** What the operand of a reference opcode names; the C code numbers these 0..3. */
  datatype Pool = MethodPool | FieldPool | StringPool | TypePool

  /** The arguments one scan is run with. A string mask is a bitset, every other mask one
      byte per 16-bit index. */
  datatype Query = Query(version: nat, kind: Pool, incoming: bool, pool: nat, mask: seq<byte>)
  {
    /** The C argument check `valid_mask`. */
    predicate Valid() {
      && pool <= 0x7FFF_FFFF
      && (kind == TypePool ==> pool <= 0x1_0000)
      && |mask| == if kind == StringPool then pool / 8 + (if pool % 8 != 0 then 1 else 0) else 0x1_0000
    }

    /** The mask bit or byte of a pool index. */
    predicate Selected(index: nat)
      requires Valid() && index < pool
      requires kind != StringPool ==> index < 0x1_0000
    {
      if kind == StringPool then Bit(mask[index / 8], index % 8) else mask[index] != 0
    }
  }

  /** Standard opcode widths in 16-bit code units; 0 marks an unknown opcode. */
  function Width(op: byte): (w: nat)
    ensures w <= 5
  {
    if op < 0x44 then
      if op == 0x18 then 5
      else if op in {0x03, 0x06, 0x09, 0x14, 0x17, 0x1B} || 0x24 <= op < 0x27 || 0x2A <= op < 0x2D then 3
      else if op in {0x02, 0x05, 0x08} || 0x13 <= op < 0x1B || op == 0x1C || 0x1F <= op < 0x21
              || 0x22 <= op < 0x24 || op == 0x29 || 0x2D <= op < 0x3E then 2
      else if op < 0x3E then 1
      else 0
    else if op < 0x6E then 2
    else if op < 0x79 then (if op == 0x73 then 0 else 3)
    else if op < 0x7B then 0
    else if op < 0x90 then 1
    else if op < 0xB0 then 2
    else if op < 0xD0 then 1
    else if op < 0xE3 then 2
    else if op < 0xFA then 0
    else if op < 0xFC then 4
    else if op < 0xFE then 3
    else 2
  }

  /** Call sites whose run-time target the bytecode does not name. */
  predicate Dynamic(op: int) {
    0xFA <= op <= 0xFE
  }

  predicate ReferenceOpcode(op: int, kind: Pool) {
    match kind
    case TypePool => op == 0x1C || op == 0x1F || op == 0x20 || 0x22 <= op <= 0x25
    case StringPool => op == 0x1A || op == 0x1B
    case FieldPool => 0x52 <= op <= 0x6D
    case MethodPool => 0x6E <= op <= 0x72 || 0x74 <= op <= 0x78 || op == 0xFA || op == 0xFB
  }

  // ---------------------------------------------------------------------------------------
  // The simple cursor
  // ---------------------------------------------------------------------------------------

  datatype Instruction = Instruction(position: nat, address: nat, opcode: byte)

  /** A walk of `[start, end)` inside a file. */
  predicate Region(data: seq<byte>, start: nat, position: nat, end: nat) {
    start <= position <= end <= |data|
  }

  /** The width in code units of the payload at `position`, if it is a legal one. */
  function PayloadUnits(data: seq<byte>, position: nat, end: nat): Option<nat>
    requires position + 2 <= end <= |data|
  {
    var kind := data[position + 1];
    var header := if kind == 3 then 8 else 4;
    if position % 4 != 0 || position + header > end then None
    else
      var size := U16(data, position + 2);
      if kind == 1 then Some(4 + 2 * size)
      else if kind == 2 then Some(2 + 4 * size)
      else if kind == 3 then
        if size in {1, 2, 4, 8} then Some(4 + (size * U32(data, position + 4) + 1) / 2) else None
      else None
  }

  /** One step of the simple cursor: the width of the instruction or payload at `position`.
      Code items are whole code units, so a walk never stops one byte short of its end. */
  function Units(data: seq<byte>, position: nat, end: nat, version: nat): (r: Option<nat>)
    requires position < end <= |data|
    ensures r.Some? ==> r.value > 0 && position + 2 * r.value <= end
  {
    var op := data[position];
    if position + 2 > end then None
    else if op >= 0xFA && version < (if op >= 0xFE then 39 else 38) then None
    else
      var width := if op == 0 && data[position + 1] != 0 then PayloadUnits(data, position, end)
                   else Some(Width(op));
      if width.None? || width.value == 0 || position + width.value * 2 > end then None else width
  }

  /** The instruction lies in the file, with its operand if it is a reference. */
  predicate Fits(data: seq<byte>, position: nat) {
    && position + 2 <= |data|
    && position + 2 * Width(data[position]) <= |data|
  }

  /** Every instruction of the list is one the cursor returned for this file. */
  predicate Walked(data: seq<byte>, instructions: seq<Instruction>) {
    forall i :: 0 <= i < |instructions| ==>
      Fits(data, instructions[i].position) && instructions[i].opcode == data[instructions[i].position]
  }

  /** Every instruction from `position` on, or None if the walk meets an invalid one. */
  function Instructions(data: seq<byte>, start: nat, position: nat, end: nat, version: nat)
    : (r: Option<seq<Instruction>>)
    requires Region(data, start, position, end)
    ensures r.Some? ==> Walked(data, r.value)
    decreases end - position
  {
    if position == end then Some([])
    else
      match Units(data, position, end, version)
      case None => None
      case Some(units) =>
        match Instructions(data, start, position + 2 * units, end, version)
        case None => None
        case Some(rest) => Some([Instruction(position, (position - start) / 2, data[position])] + rest)
  }

  /** The instruction bounds of a code item, or None if its header is out of place. */
  function CodeBounds(data: seq<byte>, code: nat): (r: Option<(nat, nat)>)
    ensures r.Some? ==> Region(data, r.value.0, r.value.0, r.value.1) && r.value.0 == code + 16
  {
    if code % 4 != 0 || code + 16 > |data| then None
    else
      var start, units := code + 16, U32(data, code + 12);
      var end := start + 2 * units;
      if end > |data| then None else Some((start, end))
  }

  // ---------------------------------------------------------------------------------------
  // The naive scan: the simple cursor, then a filter
  // ---------------------------------------------------------------------------------------

  /** One emitted row; `count` is the number of instructions since the previous row, itself
      included. Opcode -1 closes a code item, opcode -2 asks the caller to resume. */
  datatype Row = Row(position: nat, address: nat, opcode: int, count: nat)

  predicate IsReference(data: seq<byte>, kind: Pool, position: nat)
    requires Fits(data, position)
  {
    ReferenceOpcode(data[position], kind)
  }

  /** The operand index of a reference instruction; only const-string/jumbo has 32 bits. */
  function Operand(data: seq<byte>, kind: Pool, position: nat): nat
    requires Fits(data, position) && IsReference(data, kind, position)
  {
    if kind == StringPool && data[position] == 0x1B then U32(data, position + 2) else U16(data, position + 2)
  }

  predicate OperandInPool(data: seq<byte>, q: Query, position: nat)
    requires Fits(data, position)
  {
    IsReference(data, q.kind, position) ==> Operand(data, q.kind, position) < q.pool
  }

  /** A reference to one of the wanted pool entries. */
  predicate Matches(data: seq<byte>, q: Query, position: nat)
    requires q.Valid() && Fits(data, position) && OperandInPool(data, q, position)
  {
    && IsReference(data, q.kind, position)
    && (q.incoming ==> q.Selected(Operand(data, q.kind, position)))
  }

  predicate IsPayload(data: seq<byte>, position: nat)
    requires Fits(data, position)
  {
    data[position] == 0 && data[position + 1] != 0
  }

  /** The rows a filter over the simple cursor lets through. */
  predicate Special(data: seq<byte>, q: Query, position: nat)
    requires q.Valid() && Fits(data, position) && OperandInPool(data, q, position)
  {
    Dynamic(data[position]) || IsPayload(data, position) || Matches(data, q, position)
  }

  predicate OperandsInPool(data: seq<byte>, q: Query, instructions: seq<Instruction>)
    requires Walked(data, instructions)
  {
    forall i :: 0 <= i < |instructions| ==> OperandInPool(data, q, instructions[i].position)
  }

  /** The naive filter: emit the special instructions with running counts. */
  function Emit(data: seq<byte>, q: Query, start: nat, end: nat, instructions: seq<Instruction>, skipped: nat)
    : seq<Row>
    requires q.Valid() && start <= end && Walked(data, instructions) && OperandsInPool(data, q, instructions)
  {
    if instructions == [] then
      if skipped > 0 then [Row(end, (end - start) / 2, -1, skipped)] else []
    else
      var i := instructions[0];
      if Special(data, q, i.position) then
        [Row(i.position, i.address, i.opcode, skipped + 1)] + Emit(data, q, start, end, instructions[1..], 0)
      else
        Emit(data, q, start, end, instructions[1..], skipped + 1)
  }

  /** The reference semantics of scanning one code item: walk it with the simple cursor,
      reject an operand outside its pool, and filter. */
  function NaiveScan(data: seq<byte>, code: nat, q: Query): Option<seq<Row>>
    requires q.Valid()
  {
    match CodeBounds(data, code)
    case None => None
    case Some((start, end)) =>
      match Instructions(data, start, start, end, q.version)
      case None => None
      case Some(instructions) =>
        if OperandsInPool(data, q, instructions) then Some(Emit(data, q, start, end, instructions, 0)) else None
  }

  /** The instructions the filter lets through. */
  function Specials(data: seq<byte>, q: Query, instructions: seq<Instruction>): seq<Instruction>
    requires q.Valid() && Walked(data, instructions) && OperandsInPool(data, q, instructions)
  {
    if instructions == [] then []
    else
      (if Special(data, q, instructions[0].position) then [instructions[0]] else []) +
      Specials(data, q, instructions[1..])
  }

  /** The emitted instructions of some rows, without the closing row. */
  function Sites(rows: seq<Row>): seq<Instruction> {
    if rows == [] then []
    else
      (if 0 <= rows[0].opcode < 256 then [Instruction(rows[0].position, rows[0].address, rows[0].opcode)] else []) +
      Sites(rows[1..])
  }

  function Counted(rows: seq<Row>): nat {
    if rows == [] then 0 else rows[0].count + Counted(rows[1..])
  }

  /** A scan emits exactly the special instructions, in order and with their positions,
      addresses and opcodes, and its counts add up to the number of instructions. */
  lemma {:induction false} EmitIsExact(data: seq<byte>, q: Query, start: nat, end: nat,
                                       instructions: seq<Instruction>, skipped: nat)
    requires q.Valid() && start <= end && Walked(data, instructions) && OperandsInPool(data, q, instructions)
    ensures var rows := Emit(data, q, start, end, instructions, skipped);
            && Sites(rows) == Specials(data, q, instructions)
            && Counted(rows) == |instructions| + skipped
  {
    hide Special;
    if instructions != [] {
      var rows := Emit(data, q, start, end, instructions, skipped);
      if Special(data, q, instructions[0].position) {
        EmitIsExact(data, q, start, end, instructions[1..], 0);
        assert rows[1..] == Emit(data, q, start, end, instructions[1..], 0);
      } else {
        EmitIsExact(data, q, start, end, instructions[1..], skipped + 1);
      }
    }
  }

  /** An accepted walk covers every byte: each instruction starts where the previous one
      stopped, the first at the beginning and the last one stopping at the end. */
  lemma {:induction false} InstructionsTile(data: seq<byte>, start: nat, position: nat, end: nat, version: nat)
    requires Region(data, start, position, end) && Instructions(data, start, position, end, version).Some?
    ensures var walk := Instructions(data, start, position, end, version).value;
            && (walk == [] <==> position == end)
            && (walk != [] ==> walk[0].position == position)
            && forall i :: 0 <= i < |walk| ==>
                 && start <= walk[i].position < end && walk[i].address == (walk[i].position - start) / 2
                 && Units(data, walk[i].position, end, version).Some?
                 && walk[i].position + 2 * Units(data, walk[i].position, end, version).value ==
                    if i + 1 < |walk| then walk[i + 1].position else end
    decreases end - position
  {
    hide Units;
    if position < end {
      var walk := Instructions(data, start, position, end, version).value;
      var next := position + 2 * Units(data, position, end, version).value;
      InstructionsTile(data, start, next, end, version);
      var rest := Instructions(data, start, next, end, version).value;
      assert forall i :: 0 < i < |walk| ==> walk[i] == rest[i - 1];
    }
  }

  // ---------------------------------------------------------------------------------------
  // The C step
  // ---------------------------------------------------------------------------------------

  datatype Decoded = Decoded(opcode: byte, bytes: nat, special: bool)

  /** The step shared by row emission and candidate selection: width, version, payload and
      operand checks in the order the C code makes them, None for its -1. */
  function Decode(data: seq<byte>, q: Query, position: nat, end: nat): Option<Decoded>
    requires q.Valid() && position <= end <= |data|
  {
    if end - position < 2 then None
    else
      var op := data[position];
      var width := Width(op);
      if width == 0 || (op >= 0xFA && q.version < (if op >= 0xFE then 39 else 38)) then None
      else
        var payload := op == 0 && data[position + 1] != 0;
        var bytes := if payload then PayloadBytes(data, position, end) else Some(width * 2);
        if bytes.None? || bytes.value > end - position then None
        else if ReferenceOpcode(op, q.kind) then
          if bytes.value < 4 || (q.kind == StringPool && op == 0x1B && bytes.value < 6) then None
          else
            var index := if q.kind == StringPool && op == 0x1B then U32(data, position + 2) else U16(data, position + 2);
            if index >= q.pool then None
            else Some(Decoded(op, bytes.value, payload || !q.incoming || q.Selected(index) || Dynamic(op)))
        else Some(Decoded(op, bytes.value, payload || Dynamic(op)))
  }

  function PayloadBytes(data: seq<byte>, position: nat, end: nat): Option<nat>
    requires position + 2 <= end <= |data| && data[position + 1] != 0
  {
    var kind := data[position + 1];
    if position % 4 != 0 || kind > 3 || end - position < (if kind == 3 then 8 else 4) then None
    else
      var size := U16(data, position + 2);
      if kind == 1 then Some(8 + size * 4)
      else if kind == 2 then Some(4 + size * 8)
      else if size != 1 && size != 2 && size != 4 && size != 8 then None
      else Some(8 + (size * U32(data, position + 4) + 1) / 2 * 2)
  }

  /** The C step accepts exactly what the simple cursor accepts with its operand in the pool,
      moves by the same amount and marks the same instructions. */
  lemma DecodeRefinesCursor(data: seq<byte>, q: Query, position: nat, end: nat)
    requires q.Valid() && position < end <= |data|
    ensures var d := Decode(data, q, position, end);
            var units := Units(data, position, end, q.version);
            && (d.Some? <==> units.Some? && OperandInPool(data, q, position))
            && (d.Some? ==> d.value == Decoded(data[position], 2 * units.value, Special(data, q, position)))
  {
    assert position + 2 <= end && data[position] == 0 && 0 < data[position + 1] <= 3 ==>
      PayloadBytes(data, position, end) == match PayloadUnits(data, position, end)
                                           case None => None
                                           case Some(units) => Some(2 * units);
  }

  /** An accepted C step lies inside the file with its operand in the pool, and moves on. */
  lemma DecodeStays(data: seq<byte>, q: Query, position: nat, end: nat)
    requires q.Valid() && position < end <= |data| && Decode(data, q, position, end).Some?
    ensures Fits(data, position) && OperandInPool(data, q, position)
    ensures var d := Decode(data, q, position, end).value;
            && d.opcode == data[position] && d.special == Special(data, q, position)
            && d.bytes > 0 && position + d.bytes <= end
  {
    DecodeRefinesCursor(data, q, position, end);
  }

  // ---------------------------------------------------------------------------------------
  // The chunked scan
  // ---------------------------------------------------------------------------------------

  /** The rows from `position` on with `skipped` instructions already pending. */
  function ScanFrom(data: seq<byte>, q: Query, start: nat, position: nat, end: nat, skipped: nat): Option<seq<Row>>
    requires q.Valid() && Region(data, start, position, end)
    decreases end - position
  {
    if position == end then Some(if skipped > 0 then [Row(end, (end - start) / 2, -1, skipped)] else [])
    else
      match Decode(data, q, position, end)
      case None => None
      case Some(d) =>
        DecodeRefinesCursor(data, q, position, end);
        if d.special then
          Prefixed([Row(position, (position - start) / 2, d.opcode, skipped + 1)],
                   ScanFrom(data, q, start, position + d.bytes, end, 0))
        else
          ScanFrom(data, q, start, position + d.bytes, end, skipped + 1)
  }

  /** Rows already produced in front of rows still to come. */
  function Prefixed(rows: seq<Row>, rest: Option<seq<Row>>): Option<seq<Row>> {
    if rest.None? then None else Some(rows + rest.value)
  }

  /** Scanning on from a boundary is the simple cursor from there followed by the filter. */
  lemma {:induction false} ScanFromIsNaive(data: seq<byte>, q: Query, start: nat, position: nat, end: nat, skipped: nat)
    requires q.Valid() && Region(data, start, position, end)
    ensures var walk := Instructions(data, start, position, end, q.version);
            ScanFrom(data, q, start, position, end, skipped) ==
            if walk.Some? && OperandsInPool(data, q, walk.value)
            then Some(Emit(data, q, start, end, walk.value, skipped)) else None
    decreases end - position
  {
    hide Decode;
    hide Units;
    hide Special;
    hide OperandInPool;
    if position < end {
      DecodeRefinesCursor(data, q, position, end);
      var units := Units(data, position, end, q.version);
      if units.Some? {
        var next := position + 2 * units.value;
        ScanFromIsNaive(data, q, start, next, end, 0);
        ScanFromIsNaive(data, q, start, next, end, skipped + 1);
        var rest := Instructions(data, start, next, end, q.version);
        if rest.Some? {
          var walk := Instructions(data, start, position, end, q.version).value;
          assert walk[1..] == rest.value;
          assert forall i :: 0 <= i < |rest.value| ==> rest.value[i] == walk[i + 1];
          assert OperandsInPool(data, q, walk) ==> OperandsInPool(data, q, rest.value);
        }
      }
    }
  }

  /** A position at a whole code unit of the file. */
  predicate Even(n: nat) {
    n % 2 == 0
  }

  lemma DoubleIsEven(n: nat)
    ensures Even(2 * n)
  {
  }

  lemma EvenSum(a: nat, b: nat)
    requires Even(a) && Even(b)
    ensures Even(a + b)
  {
  }

  lemma CodeStartsEven(data: seq<byte>, code: nat)
    requires CodeBounds(data, code).Some?
    ensures Even(CodeBounds(data, code).value.0)
  {
    hide Even;
    var quarter := code / 4;
    DoubleIsEven(2 * quarter + 8);
    assert code + 16 == 2 * (2 * quarter + 8);
  }

  /** `rows` and the rows still to come from `position` are together the rows from `from`. */
  ghost predicate Pending(data: seq<byte>, q: Query, start: nat, from: nat, position: nat, end: nat,
                          rows: seq<Row>, skipped: nat)
    requires q.Valid()
  {
    && Region(data, start, from, end) && Region(data, start, position, end)
    && ScanFrom(data, q, start, from, end, 0) == Prefixed(rows, ScanFrom(data, q, start, position, end, skipped))
  }

  lemma PendingStart(data: seq<byte>, q: Query, start: nat, from: nat, end: nat)
    requires q.Valid() && Region(data, start, from, end)
    ensures Pending(data, q, start, from, from, end, [], 0)
  {
    var rest := ScanFrom(data, q, start, from, end, 0);
    assert rest.Some? ==> [] + rest.value == rest.value;
  }

  lemma PendingStep(data: seq<byte>, q: Query, start: nat, from: nat, position: nat, end: nat,
                    rows: seq<Row>, skipped: nat)
    requires q.Valid() && position < end && Pending(data, q, start, from, position, end, rows, skipped)
    ensures var d := Decode(data, q, position, end);
            match d
            case None => ScanFrom(data, q, start, from, end, 0) == None
            case Some(d) =>
              && d.bytes > 0 && position + d.bytes <= end && Even(d.bytes)
              && if d.special
                 then Pending(data, q, start, from, position + d.bytes, end,
                              rows + [Row(position, (position - start) / 2, d.opcode, skipped + 1)], 0)
                 else Pending(data, q, start, from, position + d.bytes, end, rows, skipped + 1)
  {
    hide Decode;
    hide Special;
    hide Units;
    DecodeRefinesCursor(data, q, position, end);
    var d := Decode(data, q, position, end);
    if d.Some? && d.value.special {
      var row := Row(position, (position - start) / 2, d.value.opcode, skipped + 1);
      var rest := ScanFrom(data, q, start, position + d.value.bytes, end, 0);
      assert rest.Some? ==> rows + ([row] + rest.value) == rows + [row] + rest.value;
    }
  }

  lemma PendingEnd(data: seq<byte>, q: Query, start: nat, from: nat, end: nat, rows: seq<Row>, skipped: nat)
    requires q.Valid() && Pending(data, q, start, from, end, end, rows, skipped)
    ensures ScanFrom(data, q, start, from, end, 0) ==
            Some(if skipped > 0 then rows + [Row(end, (end - start) / 2, -1, skipped)] else rows)
  {
    assert rows + [] == rows;
  }

  const CHUNK := 1024

  predicate Continues(rows: seq<Row>) {
    rows != [] && rows[|rows| - 1].opcode == -2
  }

  /** What one call must return: every row from `from` on, or 1024 of them and a marker at a
      later boundary, the rows from which complete them. */
  ghost predicate IsChunk(data: seq<byte>, q: Query, start: nat, from: nat, end: nat, r: Option<seq<Row>>)
    requires q.Valid() && Region(data, start, from, end)
  {
    if r.Some? && Continues(r.value) then
      var body, next := r.value[..|r.value| - 1], r.value[|r.value| - 1].position;
      |body| == CHUNK && from < next < end && Even(next) && Pending(data, q, start, from, next, end, body, 0)
    else r == ScanFrom(data, q, start, from, end, 0)
  }

  /** One call into the C scanner: at most 1024 rows, then a marker to resume at. */
  method Scan(data: seq<byte>, code: nat, q: Query, resume: nat) returns (r: Option<seq<Row>>)
    requires q.Valid()
    ensures match CodeBounds(data, code)
            case None => r.None?
            case Some((start, end)) =>
              var from := if resume != 0 then resume else start;
              if start <= from <= end && Even(from) then IsChunk(data, q, start, from, end, r) else r.None?
  {
    hide Decode;
    hide Pending;
    hide ScanFrom;
    hide Even;
    var bounds := CodeBounds(data, code);
    if bounds.None? {
      return None;
    }
    var (start, end) := bounds.value;
    if resume != 0 && (resume < start || resume > end || !Even(resume)) {
      return None;
    }
    CodeStartsEven(data, code);
    var rows: seq<Row>, skipped := [], 0;
    var position := if resume != 0 then resume else start;
    ghost var from := position;
    PendingStart(data, q, start, from, end);
    while position < end
      invariant from <= position <= end && Even(position)
      invariant Pending(data, q, start, from, position, end, rows, skipped)
      invariant |rows| < CHUNK || position == end
      invariant rows == [] || rows[|rows| - 1].opcode >= 0
    {
      var d := Decode(data, q, position, end);
      PendingStep(data, q, start, from, position, end, rows, skipped);
      if d.None? {
        return None;
      }
      skipped := skipped + 1;
      if d.value.special {
        rows := rows + [Row(position, (position - start) / 2, d.value.opcode, skipped)];
        skipped := 0;
      }
      EvenSum(position, d.value.bytes);
      position := position + d.value.bytes;
      if |rows| >= CHUNK && position < end {
        return Some(rows + [Row(position, (position - start) / 2, -2, 0)]);
      }
    }
    PendingEnd(data, q, start, from, end, rows, skipped);
    if skipped != 0 {
      rows := rows + [Row(end, (end - start) / 2, -1, skipped)];
    }
    return Some(rows);
  }

  lemma PendingChains(data: seq<byte>, q: Query, start: nat, from: nat, position: nat, next: nat, end: nat,
                      rows: seq<Row>, more: seq<Row>)
    requires q.Valid()
    requires Pending(data, q, start, from, position, end, rows, 0)
    requires Pending(data, q, start, position, next, end, more, 0)
    ensures Pending(data, q, start, from, next, end, rows + more, 0)
  {
    hide ScanFrom;
    var rest := ScanFrom(data, q, start, next, end, 0);
    assert rest.Some? ==> rows + (more + rest.value) == rows + more + rest.value;
  }

  /** The wrapper that resumes until no marker comes back. Together the chunks are exactly the
      naive scan, whatever the number of rows. */
  method Accelerated(data: seq<byte>, code: nat, q: Query) returns (r: Option<seq<Row>>)
    requires q.Valid()
    ensures r == NaiveScan(data, code, q)
  {
    hide ScanFrom;
    hide Instructions;
    hide Emit;
    hide OperandsInPool;
    hide Even;
    var bounds := CodeBounds(data, code);
    if bounds.None? {
      var none := Scan(data, code, q, 0);
      return none;
    }
    ghost var (start, end) := bounds.value;
    CodeStartsEven(data, code);
    ScanFromIsNaive(data, q, start, start, end, 0);
    PendingStart(data, q, start, start, end);
    var resume, all: seq<Row> := 0, [];
    ghost var from := start;
    while true
      invariant from == if resume != 0 then resume else start
      invariant start <= from <= end && Even(from)
      invariant Pending(data, q, start, start, from, end, all, 0)
      decreases end - from
    {
      var rows := Scan(data, code, q, resume);
      if rows.None? {
        return None;
      }
      if Continues(rows.value) {
        resume := rows.value[|rows.value| - 1].position;
        PendingChains(data, q, start, start, from, resume, end, all, rows.value[..|rows.value| - 1]);
        all, from := all + rows.value[..|rows.value| - 1], resume;
      } else {
        return Some(all + rows.value);
      }
    }
  }
}
