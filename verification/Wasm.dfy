/**
 * Values, numeric operators and instructions of the interpreted subset.
 * Integers are stored as their signed value; every operator wraps explicitly.
 */
module Wasm {
  import opened Prelude
  import opened Words

  datatype ValType = TI32 | TI64
  datatype Size = S32 | S64
  datatype Sign = Signed | Unsigned

  datatype Value = I32(i: int32) | I64(j: int64) {
    function Type(): ValType { if I32? then TI32 else TI64 }
    /** The integer held, whatever the width. */
    function Int(): int { if I32? then i else j }
  }

  datatype Binop =
    | Add | Sub | Mul | Div(sx: Sign) | Rem(sx: Sign)
    | And | Or | Xor | Shl | Shr(sx: Sign) | Rotl | Rotr

  datatype Relop =
    | Eq | Ne | Lt(sx: Sign) | Gt(sx: Sign) | Le(sx: Sign) | Ge(sx: Sign)

  datatype FuncType = FuncType(params: seq<ValType>, results: seq<ValType>)

  datatype Instr =
    | Unreachable
    | Nop
    | I32Const(n: int32)
    | I64Const(m: int64)
    | IBinop(nn: Size, op: Binop)
    | IRelop(nn: Size, rel: Relop)
    | IEqz(nn: Size)
    | Drop
    | Select
    | LocalGet(idx: nat)
    | LocalSet(idx: nat)
    | LocalTee(idx: nat)
    | GlobalGet(idx: nat)
    | Block(bt: Option<FuncType>, body: seq<Instr>)
    | Loop(bt: Option<FuncType>, body: seq<Instr>)
    | IfElse(bt: Option<FuncType>, thn: seq<Instr>, els: seq<Instr>)
    | Br(depth: nat)
    | BrIf(depth: nat)
    | BrTable(targets: seq<nat>, depth: nat)
    | Return
    | Call(idx: nat)
    | ReturnCall(idx: nat)

  /** A function, with the number of the module instance it belongs to, in which its body runs. */
  datatype Func = Func(ty: FuncType, locals: seq<ValType>, body: seq<Instr>, home: nat)

  /**
   * The part of a module instance that running code consults: its functions, its own and those imported
   * from other instances, and its globals, which the subset never writes.
   */
  datatype Module = Module(funcs: seq<Func>, globals: seq<Value>)

  /** The instance that code runs in, and all those it is linked with, by number. */
  datatype Linked = Linked(own: Module, all: seq<Module>) {
    /** Both the function and the instance it belongs to exist. */
    predicate Callable(idx: nat) {
      idx < |own.funcs| && own.funcs[idx].home < |all|
    }
    /** The same instances, seen from the one a function belongs to. */
    function HomeOf(idx: nat): Linked
      requires Callable(idx)
    {
      Linked(all[own.funcs[idx].home], all)
    }
  }

  datatype Trap = IntegerDivideByZero | IntegerOverflow | UnreachableTrap

  datatype Result<+T> = Ok(value: T) | Trapped(trap: Trap)

  // ---------------------------------------------------------------- integers

  function TypeOf(nn: Size): ValType { if nn.S32? then TI32 else TI64 }

  function Width(nn: Size): nat { if nn.S32? then 32 else 64 }

  function Modulus(nn: Size): nat { if nn.S32? then 0x1_0000_0000 else 0x1_0000_0000_0000_0000 }

  predicate InRange(nn: Size, x: int) { -(Modulus(nn) / 2) <= x < Modulus(nn) / 2 }

  /** The signed integer congruent to x modulo 2^32 or 2^64. */
  function Wrap(nn: Size, x: int): (r: int)
    ensures InRange(nn, r)
    ensures InRange(nn, x) ==> r == x
  {
    var u := x % Modulus(nn);
    if u < Modulus(nn) / 2 then u else u - Modulus(nn)
  }

  /** The unsigned reading of a signed integer. */
  function U(nn: Size, x: int): (r: nat)
    ensures r < Modulus(nn)
  {
    x % Modulus(nn)
  }

  function Make(nn: Size, x: int): (v: Value)
    requires InRange(nn, x)
    ensures v.Type() == TypeOf(nn) && v.Int() == x
  {
    if nn.S32? then I32(x) else I64(x)
  }

  function OfBool(b: bool): Value { I32(if b then 1 else 0) }

  function TruncDiv(a: int, b: int): int
    requires b != 0
  {
    var q := (if a < 0 then -a else a) / (if b < 0 then -b else b);
    if (a < 0) == (b < 0) then q else -q
  }

  function TruncRem(a: int, b: int): int
    requires b != 0
  {
    a - TruncDiv(a, b) * b
  }

  // Bitwise operators, bit by bit on the unsigned reading.

  function Bit(op: Binop, x: nat, y: nat): nat
    requires op.And? || op.Or? || op.Xor?
  {
    match op
    case And => if x == 1 && y == 1 then 1 else 0
    case Or => if x == 1 || y == 1 then 1 else 0
    case Xor => if x == y then 0 else 1
  }

  function Bitwise(op: Binop, x: nat, y: nat, width: nat): nat
    requires op.And? || op.Or? || op.Xor?
  {
    if width == 0 then 0
    else Bit(op, x % 2, y % 2) + 2 * Bitwise(op, x / 2, y / 2, width - 1)
  }

  function ShiftLeft(nn: Size, x: int, count: nat): int {
    Wrap(nn, x * Pow2(count % Width(nn)))
  }

  function ShiftRightU(nn: Size, x: int, count: nat): int {
    Wrap(nn, U(nn, x) / Pow2(count % Width(nn)))
  }

  function ApplyBinop(nn: Size, op: Binop, a: int, b: int): (r: Result<int>)
    requires InRange(nn, a) && InRange(nn, b)
    ensures r.Ok? ==> InRange(nn, r.value)
  {
    match op
    case Add => Ok(Wrap(nn, a + b))
    case Sub => Ok(Wrap(nn, a - b))
    case Mul => Ok(Wrap(nn, a * b))
    case Div(sx) =>
      if b == 0 then Trapped(IntegerDivideByZero)
      else if sx.Unsigned? then Ok(Wrap(nn, U(nn, a) / U(nn, b)))
      else if a == -(Modulus(nn) / 2) && b == -1 then Trapped(IntegerOverflow)
      else Ok(Wrap(nn, TruncDiv(a, b)))
    case Rem(sx) =>
      if b == 0 then Trapped(IntegerDivideByZero)
      else if sx.Unsigned? then Ok(Wrap(nn, U(nn, a) % U(nn, b)))
      else Ok(Wrap(nn, TruncRem(a, b)))
    case And => Ok(Wrap(nn, Bitwise(op, U(nn, a), U(nn, b), Width(nn))))
    case Or => Ok(Wrap(nn, Bitwise(op, U(nn, a), U(nn, b), Width(nn))))
    case Xor => Ok(Wrap(nn, Bitwise(op, U(nn, a), U(nn, b), Width(nn))))
    case Shl => Ok(ShiftLeft(nn, a, U(nn, b)))
    case Shr(sx) =>
      if sx.Signed? then Ok(Wrap(nn, a / Pow2(U(nn, b) % Width(nn))))
      else Ok(ShiftRightU(nn, a, U(nn, b)))
    case Rotl =>
      var n := U(nn, b) % Width(nn);
      Ok(Wrap(nn, Bitwise(Or, U(nn, ShiftLeft(nn, a, n)), U(nn, ShiftRightU(nn, a, Width(nn) - n)), Width(nn))))
    case Rotr =>
      var n := U(nn, b) % Width(nn);
      Ok(Wrap(nn, Bitwise(Or, U(nn, ShiftRightU(nn, a, n)), U(nn, ShiftLeft(nn, a, Width(nn) - n)), Width(nn))))
  }

  function ApplyRelop(nn: Size, rel: Relop, a: int, b: int): bool {
    match rel
    case Eq => a == b
    case Ne => a != b
    case Lt(sx) => if sx.Signed? then a < b else U(nn, a) < U(nn, b)
    case Gt(sx) => if sx.Signed? then a > b else U(nn, a) > U(nn, b)
    case Le(sx) => if sx.Signed? then a <= b else U(nn, a) <= U(nn, b)
    case Ge(sx) => if sx.Signed? then a >= b else U(nn, a) >= U(nn, b)
  }

  // ---------------------------------------------------------------- types

  /** The parameters and results of a block; a missing type is [] -> []. */
  function BlockSig(bt: Option<FuncType>): FuncType {
    if bt.None? then FuncType([], []) else bt.value
  }

  function Zero(t: ValType): (v: Value)
    ensures v.Type() == t
  {
    if t.TI32? then I32(0) else I64(0)
  }
}
