/**
 * The parser of the binary format's expressions and code entries: every reader takes the input left and
 * gives a value and what remains.
 */
module BinaryParser {
  import opened Prelude
  import opened Words
  import opened Leb128
  import opened BinaryAst

  function ReadU32(input: seq<byte>): (r: Parsed<u32>)
    ensures r.Ok? ==> |r.rest| < |input|
  {
    match ReadU(32, input)
    case Ok(w, rest) => Ok(Unsigned(w) % 0x1_0000_0000, rest)
    case Err(f) => Err(f)
    case Raised => Raised
  }

  function ReadS32(input: seq<byte>): (r: Parsed<int32>)
    ensures r.Ok? ==> |r.rest| < |input|
  {
    match ReadS(32, input)
    case Ok(w, rest) => Ok((w + 0x8000_0000) % 0x1_0000_0000 - 0x8000_0000, rest)
    case Err(f) => Err(f)
    case Raised => Raised
  }

  /** n bytes, least significant first. */
  function ReadLe(n: nat, input: seq<byte>): (r: Parsed<nat>)
    ensures r.Ok? ==> |r.rest| == |input| - n && r.value < Pow256(n)
  {
    if n == 0 then Ok(0, input)
    else if input == [] then Err(UnexpectedEnd)
    else match ReadLe(n - 1, input[1..])
      case Ok(high, rest) => Ok(input[0] + 256 * high, rest)
      case other => other
  }

  function Pow256(n: nat): nat { if n == 0 then 1 else 256 * Pow256(n - 1) }

  type Reader<T> = seq<byte> -> Parsed<T>

  function VectorLoop<T>(elt: Reader<T>, count: nat, input: seq<byte>, acc: seq<T>): (r: Parsed<seq<T>>)
    requires forall i: seq<byte> :: elt(i).Ok? ==> |elt(i).rest| < |i|
    ensures r.Ok? ==> |r.rest| <= |input|
    decreases count
  {
    if count == 0 then Ok(acc, input)
    else match elt(input)
      case Ok(x, rest) => VectorLoop(elt, count - 1, rest, acc + [x])
      case Err(f) => Err(f)
      case Raised => Raised
  }

  function Vector<T>(elt: Reader<T>, input: seq<byte>): (r: Parsed<seq<T>>)
    requires forall i: seq<byte> :: elt(i).Ok? ==> |elt(i).rest| < |i|
    ensures r.Ok? ==> |r.rest| < |input|
  {
    match ReadU32(input)
    case Ok(count, rest) => VectorLoop(elt, count, rest, [])
    case Err(f) => Err(f)
    case Raised => Raised
  }

  /** Skip one byte, which must be the one given. */
  function Expect(b: byte, input: seq<byte>): (r: Parsed<()>)
    ensures r.Ok? ==> |r.rest| < |input|
  {
    if input == [] then Err(UnexpectedEnd) else if input[0] == b then Ok((), input[1..]) else Err(Malformed)
  }

  function ReadReftype(input: seq<byte>): (r: Parsed<HeapType>)
    ensures r.Ok? ==> |r.rest| < |input|
  {
    match ReadS(7, input)
    case Ok(w, rest) =>
      if w == -0x10 then Ok(FuncHt, rest) else if w == -0x11 then Ok(ExternHt, rest) else Err(Malformed)
    case Err(f) => Err(f)
    case Raised => Raised
  }

  function ReadValtype(input: seq<byte>): (r: Parsed<ValType>)
    ensures r.Ok? ==> |r.rest| < |input|
  {
    match ReadS(7, input)
    case Err(f) => Err(f)
    case Raised => Raised
    case Ok(w, rest) =>
      if w == -0x01 then Ok(ValType.Num(I32), rest)
      else if w == -0x02 then Ok(ValType.Num(I64), rest)
      else if w == -0x03 then Ok(ValType.Num(F32), rest)
      else if w == -0x04 then Ok(ValType.Num(F64), rest)
      else if w == -0x05 then Ok(ValType.Num(V128), rest)
      else match ReadReftype(input)
        case Ok(ht, rest') => Ok(Ref(ht), rest')
        case Err(f) => Err(f)
        case Raised => Raised
  }

  function Definition(types: Types, i: nat): BlockType
    requires i < |types|
  {
    BtRaw(None, types[i].params, types[i].results)
  }

  /** A non-negative S33 is a type index; anything else is read again as the empty type or a value type. */
  function ReadBlockType(types: Types, input: seq<byte>): (r: Parsed<BlockType>)
    ensures r.Ok? ==> |r.rest| < |input|
  {
    var index := ReadS(33, input);
    if index.Ok? && index.value >= 0 then
      if index.value < |types| then Ok(Definition(types, index.value), index.rest) else Raised
    else if input != [] && input[0] == 0x40 then Ok(BtRaw(None, [], []), input[1..])
    else match ReadValtype(input)
      case Ok(vt, rest) => Ok(BtRaw(None, [], [vt]), rest)
      case Err(f) => Err(f)
      case Raised => Raised
  }

  function ReadMemarg(m: MemOp, input: seq<byte>): (r: Parsed<Instr>)
    ensures r.Ok? ==> |r.rest| < |input|
  {
    match ReadU32(input)
    case Err(f) => Err(f)
    case Raised => Raised
    case Ok(align, rest) =>
      if align >= MaxAlign(m) then Err(Malformed)
      else match ReadU32(rest)
        case Ok(offset, rest') => Ok(Memory(m, align, offset), rest')
        case Err(f) => Err(f)
        case Raised => Raised
  }

  /** An instruction built from one index. */
  function Indexing(input: seq<byte>, make: u32 -> Instr): (r: Parsed<Instr>)
    ensures r.Ok? ==> |r.rest| < |input|
  {
    match ReadU32(input)
    case Ok(i, rest) => Ok(make(i), rest)
    case Err(f) => Err(f)
    case Raised => Raised
  }

  function Indexing2(input: seq<byte>, make: (u32, u32) -> Instr): (r: Parsed<Instr>)
    ensures r.Ok? ==> |r.rest| < |input|
  {
    match ReadU32(input)
    case Ok(i, rest) => Indexing(rest, (j: u32) => make(i, j))
    case Err(f) => Err(f)
    case Raised => Raised
  }

  /** A type index then a table index. */
  function ReadIndirect(types: Types, tail: bool, input: seq<byte>): (r: Parsed<Instr>)
    ensures r.Ok? ==> |r.rest| < |input|
  {
    match ReadU32(input)
    case Err(f) => Err(f)
    case Raised => Raised
    case Ok(ty, rest) =>
      match ReadU32(rest)
      case Err(f) => Err(f)
      case Raised => Raised
      case Ok(table, rest') =>
        if ty >= |types| then Raised
        else if tail then Ok(ReturnCallIndirect(table, Definition(types, ty)), rest')
        else Ok(CallIndirect(table, Definition(types, ty)), rest')
  }

  /** Then a zero byte. */
  function Zero(i: Instr, input: seq<byte>): (r: Parsed<Instr>)
    ensures r.Ok? ==> |r.rest| < |input|
  {
    match Expect(0x00, input)
    case Ok(_, rest) => Ok(i, rest)
    case Err(f) => Err(f)
    case Raised => Raised
  }

  const TRUNC_SATS: seq<Bulk> := [
    TruncSat(S32, S32, S), TruncSat(S32, S32, U), TruncSat(S32, S64, S), TruncSat(S32, S64, U),
    TruncSat(S64, S32, S), TruncSat(S64, S32, U), TruncSat(S64, S64, S), TruncSat(S64, S64, U)]

  function ReadFC(input: seq<byte>): (r: Parsed<Instr>)
    ensures r.Ok? ==> |r.rest| < |input|
  {
    match ReadU32(input)
    case Err(f) => Err(f)
    case Raised => Raised
    case Ok(op, rest) =>
      if op < 8 then Ok(Instr.Bulk(TRUNC_SATS[op]), rest)
      else if op == 8 then
        (match ReadU32(rest)
         case Ok(i, rest') => Zero(Instr.Bulk(MemoryInit(i)), rest')
         case Err(f) => Err(f)
         case Raised => Raised)
      else if op == 9 then Indexing(rest, (i: u32) => Instr.Bulk(DataDrop(i)))
      else if op == 10 then
        (match Expect(0x00, rest)
         case Ok(_, rest') => Zero(Instr.Bulk(MemoryCopy), rest')
         case Err(f) => Err(f)
         case Raised => Raised)
      else if op == 11 then Zero(Instr.Bulk(MemoryFill), rest)
      else if op == 12 then Indexing2(rest, (elem: u32, table: u32) => Instr.Bulk(TableInit(table, elem)))
      else if op == 13 then Indexing(rest, (i: u32) => Instr.Bulk(ElemDrop(i)))
      else if op == 14 then Indexing2(rest, (i: u32, j: u32) => Instr.Bulk(TableCopy(i, j)))
      else if op == 15 then Indexing(rest, (i: u32) => Instr.Bulk(TableGrow(i)))
      else if op == 16 then Indexing(rest, (i: u32) => Instr.Bulk(TableSize(i)))
      else if op == 17 then Indexing(rest, (i: u32) => Instr.Bulk(TableFill(i)))
      else Err(Malformed)
  }

  /** Instructions without nested expressions; b is the opcode already read. */
  function ReadFlat(types: Types, b: byte, input: seq<byte>): (r: Parsed<Instr>)
    ensures r.Ok? ==> |r.rest| <= |input|
  {
    if b == 0x00 then Ok(Unreachable, input)
    else if b == 0x01 then Ok(Nop, input)
    else if b == 0x0E then
      (match Vector(ReadU32, input)
       case Ok(targets, rest) => Indexing(rest, (i: u32) => BrTable(targets, i))
       case Err(f) => Err(f)
       case Raised => Raised)
    else if b == 0x0F then Ok(Return, input)
    else if b == 0x11 then ReadIndirect(types, false, input)
    else if b == 0x12 then Indexing(input, (i: u32) => ReturnCall(i))
    else if b == 0x13 then ReadIndirect(types, true, input)
    else if b == 0x14 then Indexing(input, (i: u32) => CallRef(i))
    else if b == 0x15 then
      (match ReadU32(input)
       case Ok(ty, rest) => if ty < |types| then Ok(ReturnCallRef(Definition(types, ty)), rest) else Raised
       case Err(f) => Err(f)
       case Raised => Raised)
    else if b == 0x1A then Ok(Drop, input)
    else if b == 0x1B then Ok(Select(None), input)
    else if b == 0x1C then
      (match Vector(ReadValtype, input)
       case Ok(vts, rest) => Ok(Select(Some(vts)), rest)
       case Err(f) => Err(f)
       case Raised => Raised)
    else if 0x28 <= b <= 0x3E then ReadMemarg(MEMOPS[b - 0x28], input)
    else if b == 0x3F then Zero(MemorySize, input)
    else if b == 0x40 then Zero(MemoryGrow, input)
    else if b == 0x41 then
      (match ReadS32(input) case Ok(n, rest) => Ok(I32Const(n), rest) case Err(f) => Err(f) case Raised => Raised)
    else if b == 0x42 then
      (match ReadS(64, input) case Ok(n, rest) => Ok(I64Const(n), rest) case Err(f) => Err(f) case Raised => Raised)
    else if b == 0x43 then
      (match ReadLe(4, input) case Ok(n, rest) => Ok(F32Const(n), rest) case Err(f) => Err(f) case Raised => Raised)
    else if b == 0x44 then
      (match ReadLe(8, input) case Ok(n, rest) => Ok(F64Const(n), rest) case Err(f) => Err(f) case Raised => Raised)
    else if b == 0xD0 then
      (match ReadReftype(input) case Ok(ht, rest) => Ok(RefNull(ht), rest) case Err(f) => Err(f) case Raised => Raised)
    else if b == 0xD1 then Ok(RefIsNull, input)
    else if b == 0xFC then ReadFC(input)
    else if IndexedOf(b).Some? then Indexing(input, (i: u32) => Index(IndexedOf(b).value, i))
    else if NumericOf(b).Some? then Ok(Instr.Num(NumericOf(b).value), input)
    else Err(Malformed)
  }

  function ReadInstr(types: Types, input: seq<byte>): (r: Parsed<Instr>)
    ensures r.Ok? ==> |r.rest| < |input|
    decreases |input|, 0
  {
    if input == [] then Err(UnexpectedEnd)
    else
      var b, rest := input[0], input[1..];
      if b == 0x02 || b == 0x03 || b == 0x04 then
        match ReadBlockType(types, rest)
        case Err(f) => Err(f)
        case Raised => Raised
        case Ok(bt, rest) =>
          match ReadExpr(types, [], rest)
          case Err(f) => Err(f)
          case Raised => Raised
          case Ok(body, rest) =>
            if b == 0x04 then ReadElse(types, bt, body, rest)
            else match Expect(0x0B, rest)
              case Err(f) => Err(f)
              case Raised => Raised
              case Ok(_, rest) =>
                Ok(if b == 0x02 then Block(None, Some(bt), body) else Loop(None, Some(bt), body), rest)
      else ReadFlat(types, b, rest)
  }

  /** The rest of a conditional whose first branch has been read. */
  function ReadElse(types: Types, bt: BlockType, thn: seq<Instr>, input: seq<byte>): (r: Parsed<Instr>)
    ensures r.Ok? ==> |r.rest| < |input|
    decreases |input|, 2
  {
    var els := if input != [] && input[0] == 0x05 then ReadExpr(types, [], input[1..]) else Ok([], input);
    match els
    case Err(f) => Err(f)
    case Raised => Raised
    case Ok(els, rest) =>
      match Expect(0x0B, rest)
      case Err(f) => Err(f)
      case Raised => Raised
      case Ok(_, rest) => Ok(IfElse(None, Some(bt), thn, els), rest)
  }

  /** Instructions up to an else, an end or the end of the input, which is left unread. */
  function ReadExpr(types: Types, acc: seq<Instr>, input: seq<byte>): (r: Parsed<seq<Instr>>)
    ensures r.Ok? ==> |r.rest| <= |input|
    decreases |input|, 1
  {
    if input == [] || input[0] == 0x05 || input[0] == 0x0B then Ok(acc, input)
    else match ReadInstr(types, input)
      case Ok(i, rest) => ReadExpr(types, acc + [i], rest)
      case Err(f) => Err(f)
      case Raised => Raised
  }

  // ---------------------------------------------------------------- code entries

  function ReadLocal(input: seq<byte>): (r: Parsed<(u32, ValType)>)
    ensures r.Ok? ==> |r.rest| < |input|
  {
    match ReadU32(input)
    case Err(f) => Err(f)
    case Raised => Raised
    case Ok(n, rest) =>
      match ReadValtype(rest)
      case Ok(t, rest') => Ok((n, t), rest')
      case Err(f) => Err(f)
      case Raised => Raised
  }

  function Total(runs: seq<(u32, ValType)>): nat {
    if runs == [] then 0 else runs[0].0 + Total(runs[1..])
  }

  function Repeat<T>(n: nat, x: T): seq<T> { seq(n, _ => x) }

  function Flatten(runs: seq<(u32, ValType)>): seq<ValType> {
    if runs == [] then [] else Repeat(runs[0].0, runs[0].1) + Flatten(runs[1..])
  }

  /** The sum is taken in a 64-bit word and compared unsigned. */
  function ReadLocals(input: seq<byte>): Parsed<seq<ValType>> {
    match Vector(ReadLocal, input)
    case Err(f) => Err(f)
    case Raised => Raised
    case Ok(runs, rest) => if Total(runs) % TWO_64 < 0x1_0000_0000 then Ok(Flatten(runs), rest) else Err(TooLarge)
  }

  function ReadCode(types: Types, input: seq<byte>): Parsed<(seq<ValType>, seq<Instr>)> {
    match ReadU32(input)
    case Err(f) => Err(f)
    case Raised => Raised
    case Ok(size, rest) =>
      if size > |rest| then Err(OutOfBounds)
      else
        var next := rest[size..];
        match ReadLocals(rest[..size])
        case Err(f) => Err(f)
        case Raised => Raised
        case Ok(locals, code) =>
          match ReadExpr(types, [], code)
          case Err(f) => Err(f)
          case Raised => Raised
          case Ok(body, code) =>
            if code == [] && next == [] then Err(UnexpectedEnd)
            else match Expect(0x0B, code)
              case Err(f) => Err(f)
              case Raised => Raised
              case Ok(_, code) => if code != [] then Err(UnexpectedEnd) else Ok((locals, body), next)
  }
}
