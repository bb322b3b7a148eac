/** The expressions of the binary format, as the encoder takes them and the parser gives them. */
module BinaryAst {
  import opened Prelude
  import opened Words

  datatype NumType = I32 | I64 | F32 | F64 | V128
  datatype HeapType = FuncHt | ExternHt
  datatype ValType = Num(nt: NumType) | Ref(ht: HeapType)

  /** A block type, with the index of its definition when it has one. */
  datatype BlockType = BtRaw(idx: Option<u32>, params: seq<ValType>, results: seq<ValType>)
  datatype FuncType = FuncType(params: seq<ValType>, results: seq<ValType>)
  type Types = seq<FuncType>

  datatype Nn = S32 | S64
  datatype Sx = S | U

  datatype IRel = Eq | Ne | Lt(sx: Sx) | Gt(sx: Sx) | Le(sx: Sx) | Ge(sx: Sx)
  datatype FRel = FEq | FNe | FLt | FGt | FLe | FGe
  datatype IUn = Clz | Ctz | Popcnt
  datatype IBin = Add | Sub | Mul | Div(sx: Sx) | Rem(sx: Sx) | And | Or | Xor | Shl | Shr(sx: Sx) | Rotl | Rotr
  datatype FUn = Abs | FNeg | Ceil | Floor | Trunc | Nearest | Sqrt
  datatype FBin = FAdd | FSub | FMul | FDiv | FMin | FMax | Copysign
  datatype Conversion =
    | I32WrapI64 | ITruncF(nn: Nn, from: Nn, sx: Sx) | I64ExtendI32(sx: Sx) | FConvertI(nn: Nn, from: Nn, sx: Sx)
    | F32DemoteF64 | F64PromoteF32 | IReinterpretF(nn: Nn) | FReinterpretI(nn: Nn)
    | IExtend8(nn: Nn) | IExtend16(nn: Nn) | I64Extend32

  /** Instructions that are one opcode and nothing else. */
  datatype Numeric =
    | ITestop(nn: Nn) | IRelop(nn: Nn, irel: IRel) | FRelop(nn: Nn, frel: FRel)
    | IUnop(nn: Nn, iun: IUn) | IBinop(nn: Nn, ibin: IBin)
    | FUnop(nn: Nn, fun: FUn) | FBinop(nn: Nn, fbin: FBin) | Convert(conv: Conversion)

  /** Instructions that are one opcode and one index. */
  datatype Indexed =
    | Br | BrIf | Call | LocalGet | LocalSet | LocalTee | GlobalGet | GlobalSet | TableGet | TableSet | RefFunc

  /** Loads and stores. */
  datatype MemOp =
    | ILoad(nn: Nn) | FLoad(nn: Nn) | ILoad8(nn: Nn, sx: Sx) | ILoad16(nn: Nn, sx: Sx) | I64Load32(sx: Sx)
    | IStore(nn: Nn) | FStore(nn: Nn) | IStore8(nn: Nn) | IStore16(nn: Nn) | I64Store32

  /** Instructions behind the prefix FC. */
  datatype Bulk =
    | TruncSat(nn: Nn, from: Nn, sx: Sx) | MemoryInit(i: u32) | DataDrop(i: u32) | MemoryCopy | MemoryFill
    | TableInit(table: u32, elem: u32) | ElemDrop(i: u32) | TableCopy(i: u32, j: u32)
    | TableGrow(i: u32) | TableSize(i: u32) | TableFill(i: u32)

  datatype Instr =
    | Unreachable | Nop | Return | Drop | RefIsNull | MemorySize | MemoryGrow
    | Block(lbl: Option<string>, bt: Option<BlockType>, body: seq<Instr>)
    | Loop(lbl: Option<string>, bt: Option<BlockType>, body: seq<Instr>)
    | IfElse(lbl: Option<string>, bt: Option<BlockType>, thn: seq<Instr>, els: seq<Instr>)
    | Index(op: Indexed, i: u32)
    | BrTable(targets: seq<u32>, default: u32)
    | CallIndirect(table: u32, ty: BlockType)
    | Select(types: Option<seq<ValType>>)
    | Memory(mem: MemOp, align: u32, offset: u32)
    | I32Const(n: int32) | I64Const(m: int64) | F32Const(bits: u32) | F64Const(wide: u64)
    | RefNull(ht: HeapType)
    | Num(num: Numeric)
    | Bulk(bulk: Bulk)
    // read but never written
    | ReturnCall(i: u32) | ReturnCallIndirect(table: u32, ty: BlockType)
    | CallRef(i: u32) | ReturnCallRef(ty: BlockType)

  // ---------------------------------------------------------------- opcodes

  const IRELS: seq<IRel> := [Eq, Ne, Lt(S), Lt(U), Gt(S), Gt(U), Le(S), Le(U), Ge(S), Ge(U)]
  const FRELS: seq<FRel> := [FEq, FNe, FLt, FGt, FLe, FGe]
  const IUNS: seq<IUn> := [Clz, Ctz, Popcnt]
  const IBINS: seq<IBin> := [
    Add, Sub, Mul, Div(S), Div(U), Rem(S), Rem(U), And, Or, Xor, Shl, Shr(S), Shr(U), Rotl, Rotr]
  const FUNS: seq<FUn> := [Abs, FNeg, Ceil, Floor, Trunc, Nearest, Sqrt]
  const FBINS: seq<FBin> := [FAdd, FSub, FMul, FDiv, FMin, FMax, Copysign]
  const CONVERSIONS: seq<Conversion> := [
    I32WrapI64, ITruncF(S32, S32, S), ITruncF(S32, S32, U), ITruncF(S32, S64, S), ITruncF(S32, S64, U),
    I64ExtendI32(S), I64ExtendI32(U), ITruncF(S64, S32, S), ITruncF(S64, S32, U), ITruncF(S64, S64, S),
    ITruncF(S64, S64, U),
    FConvertI(S32, S32, S), FConvertI(S32, S32, U), FConvertI(S32, S64, S), FConvertI(S32, S64, U), F32DemoteF64,
    FConvertI(S64, S32, S), FConvertI(S64, S32, U), FConvertI(S64, S64, S), FConvertI(S64, S64, U), F64PromoteF32,
    IReinterpretF(S32), IReinterpretF(S64), FReinterpretI(S32), FReinterpretI(S64),
    IExtend8(S32), IExtend16(S32), IExtend8(S64), IExtend16(S64), I64Extend32]
  const MEMOPS: seq<MemOp> := [
    ILoad(S32), ILoad(S64), FLoad(S32), FLoad(S64), ILoad8(S32, S), ILoad8(S32, U), ILoad16(S32, S), ILoad16(S32, U),
    ILoad8(S64, S), ILoad8(S64, U), ILoad16(S64, S), ILoad16(S64, U), I64Load32(S), I64Load32(U),
    IStore(S32), IStore(S64), FStore(S32), FStore(S64), IStore8(S32), IStore16(S32), IStore8(S64), IStore16(S64),
    I64Store32]

  // Positions in the tables above, in the order of the opcodes.

  function IRelIndex(r: IRel): (k: nat)
    ensures k < |IRELS| && IRELS[k] == r
  {
    match r
    case Eq => 0 case Ne => 1
    case Lt(x) => if x.S? then 2 else 3
    case Gt(x) => if x.S? then 4 else 5
    case Le(x) => if x.S? then 6 else 7
    case Ge(x) => if x.S? then 8 else 9
  }

  function FRelIndex(r: FRel): (k: nat)
    ensures k < |FRELS| && FRELS[k] == r
  {
    match r case FEq => 0 case FNe => 1 case FLt => 2 case FGt => 3 case FLe => 4 case FGe => 5
  }

  function IUnIndex(u: IUn): (k: nat)
    ensures k < |IUNS| && IUNS[k] == u
  {
    match u case Clz => 0 case Ctz => 1 case Popcnt => 2
  }

  function IBinIndex(b: IBin): (k: nat)
    ensures k < |IBINS| && IBINS[k] == b
  {
    match b
    case Add => 0 case Sub => 1 case Mul => 2
    case Div(x) => if x.S? then 3 else 4
    case Rem(x) => if x.S? then 5 else 6
    case And => 7 case Or => 8 case Xor => 9 case Shl => 10
    case Shr(x) => if x.S? then 11 else 12
    case Rotl => 13 case Rotr => 14
  }

  function FUnIndex(u: FUn): (k: nat)
    ensures k < |FUNS| && FUNS[k] == u
  {
    match u case Abs => 0 case FNeg => 1 case Ceil => 2 case Floor => 3 case Trunc => 4 case Nearest => 5 case Sqrt => 6
  }

  function FBinIndex(b: FBin): (k: nat)
    ensures k < |FBINS| && FBINS[k] == b
  {
    match b case FAdd => 0 case FSub => 1 case FMul => 2 case FDiv => 3 case FMin => 4 case FMax => 5 case Copysign => 6
  }

  function ConversionIndex(c: Conversion): (k: nat)
    ensures k < |CONVERSIONS| && CONVERSIONS[k] == c
  {
    match c
    case I32WrapI64 => 0
    case ITruncF(nn, from, x) => (if nn.S32? then 1 else 7) + (if from.S32? then 0 else 2) + (if x.S? then 0 else 1)
    case I64ExtendI32(x) => if x.S? then 5 else 6
    case FConvertI(nn, from, x) => (if nn.S32? then 11 else 16) + (if from.S32? then 0 else 2) + (if x.S? then 0 else 1)
    case F32DemoteF64 => 15
    case F64PromoteF32 => 20
    case IReinterpretF(nn) => if nn.S32? then 21 else 22
    case FReinterpretI(nn) => if nn.S32? then 23 else 24
    case IExtend8(nn) => if nn.S32? then 25 else 27
    case IExtend16(nn) => if nn.S32? then 26 else 28
    case I64Extend32 => 29
  }

  function MemIndex(m: MemOp): (k: nat)
    ensures k < |MEMOPS| && MEMOPS[k] == m
  {
    match m
    case ILoad(nn) => if nn.S32? then 0 else 1
    case FLoad(nn) => if nn.S32? then 2 else 3
    case ILoad8(nn, x) => (if nn.S32? then 4 else 8) + (if x.S? then 0 else 1)
    case ILoad16(nn, x) => (if nn.S32? then 6 else 10) + (if x.S? then 0 else 1)
    case I64Load32(x) => if x.S? then 12 else 13
    case IStore(nn) => if nn.S32? then 14 else 15
    case FStore(nn) => if nn.S32? then 16 else 17
    case IStore8(nn) => if nn.S32? then 18 else 20
    case IStore16(nn) => if nn.S32? then 19 else 21
    case I64Store32 => 22
  }

  /** The bound the parser puts on a load's or store's alignment. */
  function MaxAlign(m: MemOp): nat {
    match m
    case I64Load32(_) => 32
    case I64Store32 => 32
    case ILoad(nn) => if nn.S32? then 32 else 64
    case FLoad(nn) => if nn.S32? then 32 else 64
    case ILoad8(nn, _) => if nn.S32? then 32 else 64
    case ILoad16(nn, _) => if nn.S32? then 32 else 64
    case IStore(nn) => if nn.S32? then 32 else 64
    case FStore(nn) => if nn.S32? then 32 else 64
    case IStore8(nn) => if nn.S32? then 32 else 64
    case IStore16(nn) => if nn.S32? then 32 else 64
  }

  function IndexedOpcode(op: Indexed): byte {
    match op
    case Br => 0x0C case BrIf => 0x0D case Call => 0x10
    case LocalGet => 0x20 case LocalSet => 0x21 case LocalTee => 0x22 case GlobalGet => 0x23 case GlobalSet => 0x24
    case TableGet => 0x25 case TableSet => 0x26 case RefFunc => 0xD2
  }

  function IndexedOf(b: byte): Option<Indexed> {
    if b == 0x0C then Some(Br) else if b == 0x0D then Some(BrIf) else if b == 0x10 then Some(Call)
    else if b == 0x20 then Some(LocalGet) else if b == 0x21 then Some(LocalSet) else if b == 0x22 then Some(LocalTee)
    else if b == 0x23 then Some(GlobalGet) else if b == 0x24 then Some(GlobalSet)
    else if b == 0x25 then Some(TableGet) else if b == 0x26 then Some(TableSet) else if b == 0xD2 then Some(RefFunc)
    else None
  }

  function NumericOpcode(i: Numeric): int {
    match i
    case ITestop(nn) => if nn.S32? then 0x45 else 0x50
    case IRelop(nn, r) => (if nn.S32? then 0x46 else 0x51) + IRelIndex(r)
    case FRelop(nn, r) => (if nn.S32? then 0x5B else 0x61) + FRelIndex(r)
    case IUnop(nn, u) => (if nn.S32? then 0x67 else 0x79) + IUnIndex(u)
    case IBinop(nn, b) => (if nn.S32? then 0x6A else 0x7C) + IBinIndex(b)
    case FUnop(nn, u) => (if nn.S32? then 0x8B else 0x99) + FUnIndex(u)
    case FBinop(nn, b) => (if nn.S32? then 0x92 else 0xA0) + FBinIndex(b)
    case Convert(c) => 0xA7 + ConversionIndex(c)
  }

  function NumericOf(b: byte): Option<Numeric> {
    if b < 0x45 || b > 0xC4 then None
    else if b == 0x45 then Some(ITestop(S32))
    else if b < 0x50 then Some(IRelop(S32, IRELS[b - 0x46]))
    else if b == 0x50 then Some(ITestop(S64))
    else if b < 0x5B then Some(IRelop(S64, IRELS[b - 0x51]))
    else if b < 0x61 then Some(FRelop(S32, FRELS[b - 0x5B]))
    else if b < 0x67 then Some(FRelop(S64, FRELS[b - 0x61]))
    else if b < 0x6A then Some(IUnop(S32, IUNS[b - 0x67]))
    else if b < 0x79 then Some(IBinop(S32, IBINS[b - 0x6A]))
    else if b < 0x7C then Some(IUnop(S64, IUNS[b - 0x79]))
    else if b < 0x8B then Some(IBinop(S64, IBINS[b - 0x7C]))
    else if b < 0x92 then Some(FUnop(S32, FUNS[b - 0x8B]))
    else if b < 0x99 then Some(FBinop(S32, FBINS[b - 0x92]))
    else if b < 0xA0 then Some(FUnop(S64, FUNS[b - 0x99]))
    else if b < 0xA7 then Some(FBinop(S64, FBINS[b - 0xA0]))
    else Some(Convert(CONVERSIONS[b - 0xA7]))
  }

  /** Every operator has an opcode of its own, and the parser's table gives it back. */
  lemma NumericTable(i: Numeric)
    ensures 0x45 <= NumericOpcode(i) <= 0xC4 && NumericOf(NumericOpcode(i)) == Some(i)
  {
  }
}
