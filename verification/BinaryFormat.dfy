/**
 * The instructions of the binary format as section 5.4 of the WebAssembly Core Specification lists them: one opcode
 * each and what stands behind it, written out. The encoder writes these bytes and the parser reads them.
 */
module BinaryFormat {
  import opened Prelude
  import opened Words
  import opened Leb128
  import opened BinaryAst
  import opened BinaryParser
  import opened BinaryEncoder
  import opened CodecProofs
  import opened CodecExactly
  import opened CodeProofs

  // ---------------------------------------------------------------- opcodes

  function NumericByte(n: Numeric): byte {
    match n
    case ITestop(S32) => 0x45
    case IRelop(S32, Eq) => 0x46 case IRelop(S32, Ne) => 0x47
    case IRelop(S32, Lt(S)) => 0x48 case IRelop(S32, Lt(U)) => 0x49
    case IRelop(S32, Gt(S)) => 0x4A case IRelop(S32, Gt(U)) => 0x4B
    case IRelop(S32, Le(S)) => 0x4C case IRelop(S32, Le(U)) => 0x4D
    case IRelop(S32, Ge(S)) => 0x4E case IRelop(S32, Ge(U)) => 0x4F
    case ITestop(S64) => 0x50
    case IRelop(S64, Eq) => 0x51 case IRelop(S64, Ne) => 0x52
    case IRelop(S64, Lt(S)) => 0x53 case IRelop(S64, Lt(U)) => 0x54
    case IRelop(S64, Gt(S)) => 0x55 case IRelop(S64, Gt(U)) => 0x56
    case IRelop(S64, Le(S)) => 0x57 case IRelop(S64, Le(U)) => 0x58
    case IRelop(S64, Ge(S)) => 0x59 case IRelop(S64, Ge(U)) => 0x5A
    case FRelop(S32, FEq) => 0x5B case FRelop(S32, FNe) => 0x5C case FRelop(S32, FLt) => 0x5D
    case FRelop(S32, FGt) => 0x5E case FRelop(S32, FLe) => 0x5F case FRelop(S32, FGe) => 0x60
    case FRelop(S64, FEq) => 0x61 case FRelop(S64, FNe) => 0x62 case FRelop(S64, FLt) => 0x63
    case FRelop(S64, FGt) => 0x64 case FRelop(S64, FLe) => 0x65 case FRelop(S64, FGe) => 0x66
    case IUnop(S32, Clz) => 0x67 case IUnop(S32, Ctz) => 0x68 case IUnop(S32, Popcnt) => 0x69
    case IBinop(S32, Add) => 0x6A case IBinop(S32, Sub) => 0x6B case IBinop(S32, Mul) => 0x6C
    case IBinop(S32, Div(S)) => 0x6D case IBinop(S32, Div(U)) => 0x6E
    case IBinop(S32, Rem(S)) => 0x6F case IBinop(S32, Rem(U)) => 0x70
    case IBinop(S32, And) => 0x71 case IBinop(S32, Or) => 0x72 case IBinop(S32, Xor) => 0x73
    case IBinop(S32, Shl) => 0x74 case IBinop(S32, Shr(S)) => 0x75 case IBinop(S32, Shr(U)) => 0x76
    case IBinop(S32, Rotl) => 0x77 case IBinop(S32, Rotr) => 0x78
    case IUnop(S64, Clz) => 0x79 case IUnop(S64, Ctz) => 0x7A case IUnop(S64, Popcnt) => 0x7B
    case IBinop(S64, Add) => 0x7C case IBinop(S64, Sub) => 0x7D case IBinop(S64, Mul) => 0x7E
    case IBinop(S64, Div(S)) => 0x7F case IBinop(S64, Div(U)) => 0x80
    case IBinop(S64, Rem(S)) => 0x81 case IBinop(S64, Rem(U)) => 0x82
    case IBinop(S64, And) => 0x83 case IBinop(S64, Or) => 0x84 case IBinop(S64, Xor) => 0x85
    case IBinop(S64, Shl) => 0x86 case IBinop(S64, Shr(S)) => 0x87 case IBinop(S64, Shr(U)) => 0x88
    case IBinop(S64, Rotl) => 0x89 case IBinop(S64, Rotr) => 0x8A
    case FUnop(S32, Abs) => 0x8B case FUnop(S32, FNeg) => 0x8C case FUnop(S32, Ceil) => 0x8D
    case FUnop(S32, Floor) => 0x8E case FUnop(S32, Trunc) => 0x8F case FUnop(S32, Nearest) => 0x90
    case FUnop(S32, Sqrt) => 0x91
    case FBinop(S32, FAdd) => 0x92 case FBinop(S32, FSub) => 0x93 case FBinop(S32, FMul) => 0x94
    case FBinop(S32, FDiv) => 0x95 case FBinop(S32, FMin) => 0x96 case FBinop(S32, FMax) => 0x97
    case FBinop(S32, Copysign) => 0x98
    case FUnop(S64, Abs) => 0x99 case FUnop(S64, FNeg) => 0x9A case FUnop(S64, Ceil) => 0x9B
    case FUnop(S64, Floor) => 0x9C case FUnop(S64, Trunc) => 0x9D case FUnop(S64, Nearest) => 0x9E
    case FUnop(S64, Sqrt) => 0x9F
    case FBinop(S64, FAdd) => 0xA0 case FBinop(S64, FSub) => 0xA1 case FBinop(S64, FMul) => 0xA2
    case FBinop(S64, FDiv) => 0xA3 case FBinop(S64, FMin) => 0xA4 case FBinop(S64, FMax) => 0xA5
    case FBinop(S64, Copysign) => 0xA6
    case Convert(I32WrapI64) => 0xA7
    case Convert(ITruncF(S32, S32, S)) => 0xA8 case Convert(ITruncF(S32, S32, U)) => 0xA9
    case Convert(ITruncF(S32, S64, S)) => 0xAA case Convert(ITruncF(S32, S64, U)) => 0xAB
    case Convert(I64ExtendI32(S)) => 0xAC case Convert(I64ExtendI32(U)) => 0xAD
    case Convert(ITruncF(S64, S32, S)) => 0xAE case Convert(ITruncF(S64, S32, U)) => 0xAF
    case Convert(ITruncF(S64, S64, S)) => 0xB0 case Convert(ITruncF(S64, S64, U)) => 0xB1
    case Convert(FConvertI(S32, S32, S)) => 0xB2 case Convert(FConvertI(S32, S32, U)) => 0xB3
    case Convert(FConvertI(S32, S64, S)) => 0xB4 case Convert(FConvertI(S32, S64, U)) => 0xB5
    case Convert(F32DemoteF64) => 0xB6
    case Convert(FConvertI(S64, S32, S)) => 0xB7 case Convert(FConvertI(S64, S32, U)) => 0xB8
    case Convert(FConvertI(S64, S64, S)) => 0xB9 case Convert(FConvertI(S64, S64, U)) => 0xBA
    case Convert(F64PromoteF32) => 0xBB
    case Convert(IReinterpretF(S32)) => 0xBC case Convert(IReinterpretF(S64)) => 0xBD
    case Convert(FReinterpretI(S32)) => 0xBE case Convert(FReinterpretI(S64)) => 0xBF
    case Convert(IExtend8(S32)) => 0xC0 case Convert(IExtend16(S32)) => 0xC1
    case Convert(IExtend8(S64)) => 0xC2 case Convert(IExtend16(S64)) => 0xC3
    case Convert(I64Extend32) => 0xC4
  }

  function MemoryByte(m: MemOp): byte {
    match m
    case ILoad(S32) => 0x28 case ILoad(S64) => 0x29 case FLoad(S32) => 0x2A case FLoad(S64) => 0x2B
    case ILoad8(S32, S) => 0x2C case ILoad8(S32, U) => 0x2D case ILoad16(S32, S) => 0x2E case ILoad16(S32, U) => 0x2F
    case ILoad8(S64, S) => 0x30 case ILoad8(S64, U) => 0x31 case ILoad16(S64, S) => 0x32 case ILoad16(S64, U) => 0x33
    case I64Load32(S) => 0x34 case I64Load32(U) => 0x35
    case IStore(S32) => 0x36 case IStore(S64) => 0x37 case FStore(S32) => 0x38 case FStore(S64) => 0x39
    case IStore8(S32) => 0x3A case IStore16(S32) => 0x3B case IStore8(S64) => 0x3C case IStore16(S64) => 0x3D
    case I64Store32 => 0x3E
  }

  /** The opcode, or the prefix. */
  function OpcodeByte(i: Instr): byte {
    match i
    case Unreachable => 0x00 case Nop => 0x01
    case Block(_, _, _) => 0x02 case Loop(_, _, _) => 0x03 case IfElse(_, _, _, _) => 0x04
    case Index(Br, _) => 0x0C case Index(BrIf, _) => 0x0D case BrTable(_, _) => 0x0E case Return => 0x0F
    case Index(Call, _) => 0x10 case CallIndirect(_, _) => 0x11
    case ReturnCall(_) => 0x12 case ReturnCallIndirect(_, _) => 0x13
    case CallRef(_) => 0x14 case ReturnCallRef(_) => 0x15
    case Drop => 0x1A case Select(None) => 0x1B case Select(Some(_)) => 0x1C
    case Index(LocalGet, _) => 0x20 case Index(LocalSet, _) => 0x21 case Index(LocalTee, _) => 0x22
    case Index(GlobalGet, _) => 0x23 case Index(GlobalSet, _) => 0x24
    case Index(TableGet, _) => 0x25 case Index(TableSet, _) => 0x26
    case Memory(m, _, _) => MemoryByte(m)
    case MemorySize => 0x3F case MemoryGrow => 0x40
    case I32Const(_) => 0x41 case I64Const(_) => 0x42 case F32Const(_) => 0x43 case F64Const(_) => 0x44
    case Num(n) => NumericByte(n)
    case RefNull(_) => 0xD0 case RefIsNull => 0xD1 case Index(RefFunc, _) => 0xD2
    case Bulk(_) => 0xFC
  }

  // ---------------------------------------------------------------- what stands behind

  function BulkBehind(b: Bulk): seq<byte> {
    match b
    case TruncSat(S32, S32, S) => [0] case TruncSat(S32, S32, U) => [1]
    case TruncSat(S32, S64, S) => [2] case TruncSat(S32, S64, U) => [3]
    case TruncSat(S64, S32, S) => [4] case TruncSat(S64, S32, U) => [5]
    case TruncSat(S64, S64, S) => [6] case TruncSat(S64, S64, U) => [7]
    case MemoryInit(data) => [8] + UBytes(data) + [0x00]
    case DataDrop(data) => [9] + UBytes(data)
    case MemoryCopy => [10, 0x00, 0x00]
    case MemoryFill => [11, 0x00]
    case TableInit(table, elem) => [12] + UBytes(elem) + UBytes(table)
    case ElemDrop(elem) => [13] + UBytes(elem)
    case TableCopy(to, from) => [14] + UBytes(to) + UBytes(from)
    case TableGrow(table) => [15] + UBytes(table)
    case TableSize(table) => [16] + UBytes(table)
    case TableFill(table) => [17] + UBytes(table)
  }

  function TypeByte(vt: ValType): byte {
    match vt
    case Num(I32) => 0x7F case Num(I64) => 0x7E case Num(F32) => 0x7D case Num(F64) => 0x7C case Num(V128) => 0x7B
    case Ref(FuncHt) => 0x70 case Ref(ExternHt) => 0x6F
  }

  function Indices(ks: seq<u32>): seq<byte> {
    if ks == [] then [] else UBytes(ks[0]) + Indices(ks[1..])
  }

  predicate Nests(i: Instr) { i.Block? || i.Loop? || i.IfElse? }

  /** The immediates of an instruction the encoder accepts that nests no expression. */
  function Behind(i: Instr): seq<byte>
    requires Writable(i) && !Nests(i)
  {
    match i
    case Index(_, k) => UBytes(k)
    case BrTable(targets, default) => UBytes(|targets| % 0x1_0000_0000) + Indices(targets) + UBytes(default)
    case CallIndirect(table, ty) => UBytes(ty.idx.value) + UBytes(table)
    case Select(Some(types)) => seq(|types|, k requires 0 <= k < |types| => TypeByte(types[k]))
    case Memory(_, align, offset) => UBytes(align) + UBytes(offset)
    case MemorySize => [0x00] case MemoryGrow => [0x00]
    case I32Const(n) => SBytes(n) case I64Const(n) => SBytes(n)
    case F32Const(b) => [b % 256, b / 0x100 % 256, b / 0x1_0000 % 256, b / 0x100_0000 % 256]
    case F64Const(b) => [b % 256, b / 0x100 % 256, b / 0x1_0000 % 256, b / 0x100_0000 % 256,
      b / 0x1_0000_0000 % 256, b / 0x100_0000_0000 % 256, b / 0x1_0000_0000_0000 % 256, b / 0x100_0000_0000_0000 % 256]
    case RefNull(ht) => [TypeByte(Ref(ht))]
    case Bulk(b) => BulkBehind(b)
    case _ => []
  }

  // ---------------------------------------------------------------- written

  lemma NumericWritten(n: Numeric)
    ensures NumericOpcode(n) == NumericByte(n)
  {
  }

  lemma MemoryWritten(m: MemOp)
    ensures 0x28 + MemIndex(m) == MemoryByte(m)
  {
  }

  lemma BulkWritten(b: Bulk)
    ensures BulkBytes(b) == BulkBehind(b)
  {
  }

  lemma {:induction false} IndicesWritten(ks: seq<u32>)
    ensures Concat(IndexBytes, ks) == Indices(ks)
  {
    if ks != [] { IndicesWritten(ks[1..]); }
  }

  lemma LeStep(n: nat, b: nat)
    ensures LeBytes(n + 1, b) == [b % 256] + LeBytes(n, b / 256)
  {
  }

  /** Two bytes at a time. */
  lemma LePair(n: nat, b: nat)
    ensures LeBytes(n + 2, b) == [b % 256, b / 0x100 % 256] + LeBytes(n, b / 0x1_0000)
  {
    LeStep(n + 1, b);
    LeStep(n, b / 256);
    assert b / 256 / 256 == b / 0x1_0000;
    hide LeBytes;
  }

  lemma Le4(b: nat)
    ensures LeBytes(4, b) == [b % 256, b / 0x100 % 256, b / 0x1_0000 % 256, b / 0x100_0000 % 256]
  {
    LePair(2, b);
    LePair(0, b / 0x1_0000);
    assert b / 0x1_0000 / 0x100 == b / 0x100_0000;
    assert LeBytes(0, b / 0x1_0000 / 0x1_0000) == [];
    hide LeBytes;
  }

  lemma LeFour(n: nat, b: nat, c: nat, d: nat)
    requires c == b / 0x1_0000 && d == c / 0x1_0000
    ensures LeBytes(n + 4, b) == LeBytes(4, b) + LeBytes(n, d)
  {
    hide LeBytes;
    LePair(n + 2, b);
    LePair(n, c);
    LeTwoPairs(b, c, d);
    Associate([b % 256, b / 0x100 % 256], [c % 256, c / 0x100 % 256], LeBytes(n, d));
  }

  lemma LeTwoPairs(b: nat, c: nat, d: nat)
    requires c == b / 0x1_0000 && d == c / 0x1_0000
    ensures LeBytes(4, b) == [b % 256, b / 0x100 % 256] + [c % 256, c / 0x100 % 256]
  {
    assert LeBytes(0, d) == [];
    hide LeBytes;
    LePair(2, b);
    LePair(0, c);
    assert [c % 256, c / 0x100 % 256] + [] == [c % 256, c / 0x100 % 256];
  }

  lemma FloatWritten(b: u32, c: u64)
    ensures LeBytes(4, b) == Behind(F32Const(b)) && LeBytes(8, c) == Behind(F64Const(c))
  {
    Le4(b);
    assert c / 0x1_0000 / 0x1_0000 == c / 0x1_0000_0000;
    LeFour(4, c, c / 0x1_0000, c / 0x1_0000_0000);
    Le4(c);
    Le4(c / 0x1_0000_0000);
    Divided(c);
    hide LeBytes;
  }

  lemma Divided(c: nat)
    ensures var d := c / 0x1_0000_0000;
      && d / 0x100 == c / 0x100_0000_0000 && d / 0x1_0000 == c / 0x1_0000_0000_0000
      && d / 0x100_0000 == c / 0x100_0000_0000_0000
  {
  }

  lemma OpcodeWritten(i: Instr)
    requires Writable(i) && !Nests(i)
    ensures Opcode(i) == OpcodeByte(i)
  {
    match i
    case Num(n) => NumericWritten(n);
    case Memory(m, _, _) => MemoryWritten(m);
    case _ =>
  }

  lemma BehindWritten(i: Instr)
    requires Writable(i) && !Nests(i)
    ensures Immediates(i) == Behind(i)
  {
    hide BulkBytes, BulkBehind, LeBytes, UBytes, SBytes;
    match i
    case BrTable(targets, _) => IndicesWritten(targets);
    case F32Const(b) => FloatWritten(b, 0);
    case F64Const(b) => FloatWritten(0, b);
    case Bulk(b) => BulkWritten(b);
    case _ =>
  }

  /** Every instruction that nests none is written as its opcode and its immediates. */
  lemma FlatWritten(i: Instr)
    requires Writable(i) && !Nests(i)
    ensures InstrBytes(i) == [OpcodeByte(i)] + Behind(i)
  {
    OpcodeWritten(i);
    BehindWritten(i);
    hide Opcode, OpcodeByte, Immediates, Behind;
  }

  /** The bytes of a block type: no type, one result, or the index of a definition. */
  function BlockTypeForm(bt: Option<BlockType>): seq<byte>
    requires BlockTypeWritable(bt)
  {
    if bt.Some? && bt.value.idx.Some? then UBytes(bt.value.idx.value)
    else if bt.Some? && bt.value.results != [] then [TypeByte(bt.value.results[0])]
    else [0x40]
  }

  /** The instructions that nest others: block type, expressions, 0x05 between the branches, 0x0B at the end. */
  lemma NestedWritten(i: Instr)
    requires Writable(i) && Nests(i)
    ensures i.Block? ==> InstrBytes(i) == [0x02] + BlockTypeForm(i.bt) + SeqBytes(i.body) + [0x0B]
    ensures i.Loop? ==> InstrBytes(i) == [0x03] + BlockTypeForm(i.bt) + SeqBytes(i.body) + [0x0B]
    ensures i.IfElse? && i.els == [] ==> InstrBytes(i) == [0x04] + BlockTypeForm(i.bt) + SeqBytes(i.thn) + [0x0B]
    ensures i.IfElse? && i.els != [] ==>
      InstrBytes(i) == [0x04] + BlockTypeForm(i.bt) + SeqBytes(i.thn) + [0x05] + SeqBytes(i.els) + [0x0B]
  {
    hide SeqBytes, UBytes;
  }

  /** So the first byte of every instruction written is its opcode. */
  lemma FirstByteWritten(i: Instr)
    requires Writable(i)
    ensures InstrBytes(i) != [] && InstrBytes(i)[0] == OpcodeByte(i)
  {
    hide InstrBytes, Behind, SeqBytes, BlockTypeForm;
    if Nests(i) { NestedWritten(i); } else { FlatWritten(i); }
  }

  // ---------------------------------------------------------------- read

  /** And the parser reads these bytes as that instruction, with the type indices resolved. */
  lemma FlatRead(types: Types, i: Instr, rest: seq<byte>)
    requires Writable(i) && Encodable(types, i) && !Nests(i)
    ensures ReadInstr(types, [OpcodeByte(i)] + Behind(i) + rest) == Ok(Resolve(types, i), rest)
  {
    hide InstrBytes, Behind, OpcodeByte, ReadInstr, Resolve, Encodable;
    FlatWritten(i);
    InstrRoundTrip(types, i, rest);
  }

  lemma NumericRead(types: Types, n: Numeric, rest: seq<byte>)
    ensures ReadInstr(types, [NumericByte(n)] + rest) == Ok(Instr.Num(n), rest)
  {
    FlatRead(types, Instr.Num(n), rest);
    hide ReadInstr, NumericByte;
    assert [NumericByte(n)] + [] + rest == [NumericByte(n)] + rest;
  }

  /** The tail calls and calls by reference, which are read and never written. */
  lemma CallsRead(types: Types, k: u32, t: u32, rest: seq<byte>)
    ensures ReadInstr(types, [0x12] + UBytes(k) + rest) == Ok(ReturnCall(k), rest)
    ensures ReadInstr(types, [0x14] + UBytes(k) + rest) == Ok(CallRef(k), rest)
    ensures ReadInstr(types, [0x13] + UBytes(t) + UBytes(k) + rest)
      == if t < |types| then Ok(ReturnCallIndirect(k, BtRaw(None, types[t].params, types[t].results)), rest) else Raised
    ensures ReadInstr(types, [0x15] + UBytes(t) + rest)
      == if t < |types| then Ok(ReturnCallRef(BtRaw(None, types[t].params, types[t].results)), rest) else Raised
  {
    hide ReadU32, UBytes;
    U32RoundTrip(k, rest);
    U32RoundTrip(t, rest);
    U32RoundTrip(t, UBytes(k) + rest);
    Behind1(0x12, UBytes(k), rest);
    Behind1(0x14, UBytes(k), rest);
    Behind1(0x15, UBytes(t), rest);
    assert [0x13] + UBytes(t) + UBytes(k) + rest == [0x13] + UBytes(t) + (UBytes(k) + rest);
    Behind1(0x13, UBytes(t), UBytes(k) + rest);
  }

  lemma Behind1(b: byte, bytes: seq<byte>, rest: seq<byte>)
    ensures ([b] + bytes + rest)[0] == b && ([b] + bytes + rest)[1..] == bytes + rest
  {
  }

  /** A select with types is read with the number of the types before them. */
  lemma TypedSelectRead(types: Types, vts: seq<ValType>, bytes: seq<byte>, rest: seq<byte>)
    requires |vts| < 0x1_0000_0000
    requires |bytes| == |vts| && forall k :: 0 <= k < |vts| ==> bytes[k] == TypeByte(vts[k])
    ensures ReadInstr(types, [0x1C] + (UBytes(|vts|) + bytes) + rest) == Ok(Select(Some(vts)), rest)
  {
    assert bytes == Map(ValtypeByte, vts);
    hide UBytes, Vector, TypeByte, ValtypeByte, ReadInstr;
    ValtypesRead(vts, rest);
    assert (UBytes(|vts|) + bytes) + rest == UBytes(|vts|) + (bytes + rest);
    TypedSelectIs(types, (UBytes(|vts|) + bytes) + rest);
    assert [0x1C] + (UBytes(|vts|) + bytes) + rest == [0x1C] + ((UBytes(|vts|) + bytes) + rest);
  }

  lemma TypedSelectIs(types: Types, input: seq<byte>)
    requires Vector(ReadValtype, input).Ok?
    ensures var r := Vector(ReadValtype, input);
      ReadInstr(types, [0x1C] + input) == Ok(Select(Some(r.value)), r.rest)
  {
    hide Vector, ReadMemarg, ReadU32, ReadS32, ReadS, ReadLe, ReadReftype, ReadFC, ReadIndirect;
    assert ([0x1C] + input)[1..] == input;
  }

  lemma ValtypesRead(vts: seq<ValType>, rest: seq<byte>)
    requires |vts| < 0x1_0000_0000
    ensures Vector(ReadValtype, UBytes(|vts|) + (Map(ValtypeByte, vts) + rest)) == Ok(vts, rest)
  {
    var tail := Map(ValtypeByte, vts) + rest;
    hide ReadU32, UBytes, ReadValtype, ValtypeByte, VectorLoop;
    U32RoundTrip(|vts|, tail);
    ValtypesLoop(vts, 0, [], rest);
    NoMore(vts, rest);
  }

  lemma NoMore(vts: seq<ValType>, rest: seq<byte>)
    ensures VectorLoop(ReadValtype, 0, rest, [] + vts) == Ok(vts, rest)
  {
    assert [] + vts == vts;
  }

  lemma SevenBits(input: seq<byte>)
    ensures input != [] && input[0] < 128 ==>
      var b: int := input[0]; ReadS(7, input) == Ok(if b < 64 then b else b - 128, input[1..])
    ensures input == [] || input[0] >= 128 ==> ReadS(7, input).Err?
  {
    if input != [] && input[0] >= 128 { assert ReadS(0, input[1..]).Err?; }
  }

  /** A type is one byte, one of the seven; everything else is an error. */
  lemma TypesRead(input: seq<byte>)
    ensures forall vt: ValType :: input != [] && input[0] == TypeByte(vt) ==> ReadValtype(input) == Ok(vt, input[1..])
    ensures forall ht: HeapType :: input != [] && input[0] == TypeByte(Ref(ht)) ==>
      ReadReftype(input) == Ok(ht, input[1..])
    ensures input == [] || !(0x7B <= input[0] <= 0x7F || input[0] == 0x6F || input[0] == 0x70) ==>
      ReadValtype(input).Err?
    ensures input == [] || !(input[0] == 0x6F || input[0] == 0x70) ==> ReadReftype(input).Err?
  {
    SevenBits(input);
    hide ReadS;
  }

  /** The bound on the alignment of a load or store, which is read as its exponent. */
  function AlignmentBound(m: MemOp): nat {
    match m
    case ILoad(S32) => 32 case ILoad(S64) => 64 case FLoad(S32) => 32 case FLoad(S64) => 64
    case ILoad8(S32, _) => 32 case ILoad8(S64, _) => 64 case ILoad16(S32, _) => 32 case ILoad16(S64, _) => 64
    case I64Load32(_) => 32
    case IStore(S32) => 32 case IStore(S64) => 64 case FStore(S32) => 32 case FStore(S64) => 64
    case IStore8(S32) => 32 case IStore8(S64) => 64 case IStore16(S32) => 32 case IStore16(S64) => 64
    case I64Store32 => 32
  }

  lemma MemoryRead(types: Types, m: MemOp, align: u32, offset: u32, rest: seq<byte>)
    ensures ReadInstr(types, [MemoryByte(m)] + (UBytes(align) + UBytes(offset)) + rest)
      == if align < AlignmentBound(m) then Ok(Memory(m, align, offset), rest) else Err(Malformed)
  {
    assert MaxAlign(m) == AlignmentBound(m);
    MemoryWritten(m);
    MemoryIs(types, MemoryByte(m), UBytes(align) + UBytes(offset) + rest);
    assert MEMOPS[MemIndex(m)] == m;
    Behind1(MemoryByte(m), UBytes(align) + UBytes(offset), rest);
    hide UBytes, MaxAlign, AlignmentBound, MemoryByte, ReadMemarg, ReadInstr, MEMOPS, MemIndex;
    assert [MemoryByte(m)] + (UBytes(align) + UBytes(offset)) + rest
      == [MemoryByte(m)] + (UBytes(align) + UBytes(offset) + rest);
    if align < MaxAlign(m) { MemoryRoundTrip(m, align, offset, rest); }
    else { AlignmentTooLarge(m, align, offset, rest); }
  }

  lemma MemoryIs(types: Types, b: byte, input: seq<byte>)
    requires 0x28 <= b <= 0x3E
    ensures ReadInstr(types, [b] + input) == ReadMemarg(MEMOPS[b - 0x28], input)
  {
    hide MEMOPS, ReadMemarg, ReadU32, ReadS32, ReadS, ReadLe, Vector, ReadReftype, ReadFC, ReadIndirect, NumericOf,
      IndexedOf;
    assert ([b] + input)[1..] == input;
  }

  lemma AlignmentTooLarge(m: MemOp, align: u32, offset: u32, rest: seq<byte>)
    requires align >= MaxAlign(m)
    ensures ReadMemarg(m, UBytes(align) + UBytes(offset) + rest) == Err(Malformed)
  {
    hide ReadU32, UBytes, MaxAlign;
    PairRoundTrip(align, offset, rest);
  }

  /** The bytes no instruction of the format begins with are refused, whatever follows. */
  lemma OthersRefused(types: Types, b: byte, input: seq<byte>)
    requires 0x05 <= b <= 0x0B || 0x16 <= b <= 0x19 || 0x1D <= b <= 0x1F || b == 0x27
      || 0xC5 <= b <= 0xCF || 0xD3 <= b <= 0xFB || b >= 0xFE
    ensures ReadInstr(types, [b] + input) == Err(Malformed)
  {
    assert ([b] + input)[1..] == input;
  }

  /** Behind the prefix, so are the numbers from 18 on. */
  lemma OtherBulkRefused(types: Types, k: u32, rest: seq<byte>)
    requires k >= 18
    ensures ReadInstr(types, [0xFC] + UBytes(k) + rest) == Err(Malformed)
  {
    hide ReadU32, UBytes;
    U32RoundTrip(k, rest);
    Behind1(0xFC, UBytes(k), rest);
  }

  // ---------------------------------------------------------------- code entries

  /** The locals that some runs of a length and a type stand for. */
  function Spread(runs: seq<(u32, ValType)>): seq<ValType> {
    if runs == [] then [] else seq(runs[0].0, _ => runs[0].1) + Spread(runs[1..])
  }

  function RunsForm(runs: seq<(u32, ValType)>): seq<byte> {
    if runs == [] then [] else UBytes(runs[0].0) + [TypeByte(runs[0].1)] + RunsForm(runs[1..])
  }

  /** No run is empty, and no two next to each other have the same type. */
  ghost predicate Shortest(runs: seq<(u32, ValType)>) {
    && (forall k :: 0 <= k < |runs| ==> runs[k].0 > 0)
    && (forall k :: 0 <= k < |runs| - 1 ==> runs[k].1 != runs[k + 1].1)
  }

  lemma {:induction false} SpreadFlattens(runs: seq<(u32, ValType)>)
    ensures Spread(runs) == Flatten(runs)
  {
    if runs != [] {
      SpreadFlattens(runs[1..]);
      assert seq(runs[0].0, _ => runs[0].1) == Repeat(runs[0].0, runs[0].1);
    }
  }

  lemma {:induction false} RunsWritten(xs: seq<Run>)
    requires Proper(xs) && Short(xs)
    ensures Concat(RunBytes, xs) == RunsForm(Typed(xs))
  {
    hide UBytes, Decode, ValtypeByte, TypeByte;
    if xs != [] {
      RunsWritten(xs[1..]);
      RunWritten(xs[0]);
      assert Typed(xs)[1..] == Typed(xs[1..]);
    }
  }

  lemma RunWritten(run: Run)
    requires run.1 < 0x1_0000_0000 && run.0 == ValtypeByte(Decode(run.0))
    ensures RunBytes(run) == UBytes(run.1) + [TypeByte(Decode(run.0))]
  {
    hide UBytes, Decode;
    TypeByteIs(Decode(run.0));
  }

  lemma TypeByteIs(vt: ValType)
    ensures ValtypeByte(vt) == TypeByte(vt)
  {
  }

  /**
   * The locals of a code entry are written as the shortest list of runs that stands for them: their number, then
   * a length and a type for each.
   */
  lemma LocalsWritten(locals: seq<ValType>) returns (runs: seq<(u32, ValType)>)
    requires |locals| < 0x1_0000_0000
    ensures Spread(runs) == locals && Shortest(runs)
    ensures |runs| < 0x1_0000_0000 && LocalsBytes(locals) == UBytes(|runs|) + RunsForm(runs)
  {
    var coded := LocalsInRuns(locals);
    hide UBytes, Expand, Flatten, Total, Spread, RunsForm, Concat, Proper, Short, Shortest, LocalsBytes, Typed, Maximal;
    FlattenExpands(coded);
    var xs := Reverse(coded);
    ReverseProper(coded);
    runs := Typed(xs);
    SpreadFlattens(runs);
    RunsWritten(xs);
    RunsShortest(xs, coded);
    assert |xs| % 0x1_0000_0000 == |xs|;
  }

  lemma LocalsInRuns(locals: seq<ValType>) returns (coded: seq<Run>)
    ensures Proper(coded) && Maximal(coded) && Expand(coded) == locals
    ensures LocalsBytes(locals) == VectorBytes(RunBytes, Reverse(coded))
  {
    coded := Runs([], locals);
    RunsExpand([], locals);
    RunsMaximal([], locals);
    hide Expand, Runs, VectorBytes;
    assert Expand([]) + locals == locals by { ExpandEmpty(); }
  }

  lemma ReverseProper(coded: seq<Run>)
    requires Proper(coded)
    ensures Proper(Reverse(coded))
  {
    hide Decode, ValtypeByte;
  }

  lemma RunsShortest(xs: seq<Run>, coded: seq<Run>)
    requires xs == Reverse(coded) && Proper(xs) && Short(xs) && Maximal(coded)
    ensures Shortest(Typed(xs))
  {
    hide Decode, ValtypeByte;
    var runs := Typed(xs);
    forall k | 0 <= k < |runs| - 1 ensures runs[k].1 != runs[k + 1].1 {
      var j := |coded| - 2 - k;
      assert coded[j].0 != coded[j + 1].0 && xs[k] == coded[j + 1] && xs[k + 1] == coded[j];
    }
  }

  lemma {:induction false} RunsRead(runs: seq<(u32, ValType)>, acc: seq<(u32, ValType)>, rest: seq<byte>)
    ensures VectorLoop(ReadLocal, |runs|, RunsForm(runs) + rest, acc) == Ok(acc + runs, rest)
    decreases |runs|
  {
    hide ReadLocal, UBytes, TypeByte;
    if runs == [] {
      assert RunsForm(runs) + rest == rest && acc + runs == acc;
    } else {
      var tail := RunsForm(runs[1..]) + rest;
      assert RunsForm(runs) + rest == UBytes(runs[0].0) + [TypeByte(runs[0].1)] + tail;
      RunRead(runs[0], tail);
      RunsRead(runs[1..], acc + [runs[0]], rest);
      assert acc + [runs[0]] + runs[1..] == acc + runs;
    }
  }

  lemma RunRead(run: (u32, ValType), rest: seq<byte>)
    ensures ReadLocal(UBytes(run.0) + [TypeByte(run.1)] + rest) == Ok(run, rest)
  {
    TypeByteIs(run.1);
    hide ReadU32, UBytes, ReadValtype, TypeByte, ValtypeByte;
    assert UBytes(run.0) + [TypeByte(run.1)] + rest == UBytes(run.0) + ([TypeByte(run.1)] + rest);
    U32RoundTrip(run.0, [TypeByte(run.1)] + rest);
    ValtypeRoundTrip(run.1, rest);
  }

  lemma {:induction false} TotalSpreads(runs: seq<(u32, ValType)>)
    ensures Total(runs) == |Spread(runs)|
  {
    if runs != [] { TotalSpreads(runs[1..]); }
  }

  /** Any runs are read, whether shortest or not, unless they stand for 2^32 locals or more, modulo 2^64. */
  lemma LocalsRead(runs: seq<(u32, ValType)>, rest: seq<byte>)
    requires |runs| < 0x1_0000_0000
    ensures ReadLocals(UBytes(|runs|) + (RunsForm(runs) + rest))
      == if |Spread(runs)| % 0x1_0000_0000_0000_0000 < 0x1_0000_0000 then Ok(Spread(runs), rest) else Err(TooLarge)
  {
    hide ReadU32, UBytes, RunsForm, VectorLoop, Spread, Total, Flatten;
    U32RoundTrip(|runs|, RunsForm(runs) + rest);
    RunsRead(runs, [], rest);
    assert [] + runs == runs;
    SpreadFlattens(runs);
    TotalSpreads(runs);
  }

  /** A code entry: its size, its locals, its expression. */
  lemma CodeWritten(locals: seq<ValType>, body: seq<Instr>)
    requires AllWritable(body) && |LocalsBytes(locals) + SeqBytes(body) + [0x0B]| < 0x1_0000_0000
    ensures var code := LocalsBytes(locals) + SeqBytes(body) + [0x0B];
      CodeBytes(locals, body) == UBytes(|code|) + code
  {
    hide UBytes, LocalsBytes, SeqBytes, ExprBytes;
    ExprWritten(body);
    Associate(LocalsBytes(locals), SeqBytes(body), [0x0B]);
  }

  lemma ExprWritten(body: seq<Instr>)
    requires AllWritable(body)
    ensures ExprBytes(body, END) == SeqBytes(body) + [0x0B]
  {
  }

  /**
   * A code entry is accepted exactly when the bytes of its size are there and are locals, an expression and one
   * 0x0B with nothing behind it; what follows the entry is left.
   */
  lemma CodeAccepted(types: Types, input: seq<byte>, locals: seq<ValType>, body: seq<Instr>, next: seq<byte>)
    ensures ReadCode(types, input) == Ok((locals, body), next) <==>
      && ReadU32(input).Ok? && ReadU32(input).value + |next| == |ReadU32(input).rest|
      && next == ReadU32(input).rest[ReadU32(input).value..]
      && var own := ReadU32(input).rest[..ReadU32(input).value];
      && ReadLocals(own).Ok? && ReadLocals(own).value == locals
      && ReadExpr(types, [], ReadLocals(own).rest) == Ok(body, [0x0B])
  {
    hide ReadU32, ReadLocals, ReadExpr;
    assert [0x0B][1..] == [];
    if ReadU32(input).Ok? && ReadU32(input).value <= |ReadU32(input).rest| {
      var own := ReadU32(input).rest[..ReadU32(input).value];
      if ReadLocals(own).Ok? && ReadExpr(types, [], ReadLocals(own).rest).Ok? {
        var code := ReadExpr(types, [], ReadLocals(own).rest).rest;
        assert code != [] && code[0] == 0x0B && code[1..] == [] ==> code == [0x0B];
      }
    }
  }

  /** An expression is its instructions one after another. */
  lemma {:induction false} SeqWritten(es: seq<Instr>, fs: seq<Instr>)
    requires AllWritable(es) && AllWritable(fs)
    ensures AllWritable(es + fs) && SeqBytes(es + fs) == SeqBytes(es) + SeqBytes(fs)
    ensures es != [] ==> SeqBytes([es[0]]) == InstrBytes(es[0])
  {
    hide InstrBytes, Writable;
    if es == [] {
      assert es + fs == fs;
    } else {
      SeqWritten(es[1..], fs);
      assert (es + fs)[1..] == es[1..] + fs && [es[0]][1..] == [];
    }
  }
}
