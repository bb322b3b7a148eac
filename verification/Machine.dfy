/**
 * The interpreter's control machine: a program counter, an operand stack, a stack of open
 * blocks and a chain of suspended callers. Operand stacks are sequences with the top first.
 */
module Machine {
  import opened Prelude
  import opened Words
  import opened Wasm

  datatype OpenBlock = OpenBlock(
    branch: seq<Instr>,
    branchRt: seq<ValType>,
    cont: seq<Instr>,
    contRt: seq<ValType>,
    stack: seq<Value>,
    isLoop: bool)

  datatype State = State(
    returnState: Option<State>,
    stack: seq<Value>,
    locals: seq<Value>,
    pc: seq<Instr>,
    blockStack: seq<OpenBlock>,
    funcRt: seq<ValType>,
    env: Linked)

  /**
   * What one step gives. Fault stands for the host exceptions: an empty stack, a failed assertion, an index
   * out of range.
   */
  datatype StepResult =
    | Returned(values: seq<Value>)
    | Continue(state: State)
    | TrapStep(trap: Trap)
    | FaultStep

  datatype RunResult =
    | Done(values: seq<Value>)
    | TrapRun(trap: Trap)
    | Fault
    | OutOfFuel

  // ---------------------------------------------------------------- operand stack

  /** The two integers on top, the lower one first. */
  function Pop2(nn: Size, stack: seq<Value>): (r: Option<(int, int, seq<Value>)>)
    ensures r.Some? ==> InRange(nn, r.value.0) && InRange(nn, r.value.1)
  {
    if |stack| < 2 || stack[0].Type() != TypeOf(nn) || stack[1].Type() != TypeOf(nn) then None
    else Some((stack[1].Int(), stack[0].Int(), stack[2..]))
  }

  function PopI32(stack: seq<Value>): Option<(int32, seq<Value>)> {
    if |stack| < 1 || !stack[0].I32? then None else Some((stack[0].i, stack[1..]))
  }

  // ---------------------------------------------------------------- control transfers

  function ReturnWith(s: State, values: seq<Value>): StepResult {
    match s.returnState
    case None => Returned(values)
    case Some(caller) => Continue(caller.(stack := values + caller.stack))
  }

  function ReturnFunc(s: State): StepResult {
    ReturnWith(s, Keep(s.stack, |s.funcRt|))
  }

  function Branch(s: State, n: nat): StepResult {
    if n > |s.blockStack| then FaultStep
    else if n == |s.blockStack| then ReturnFunc(s)
    else
      var block := s.blockStack[n];
      var blockStack := if block.isLoop then s.blockStack[n..] else s.blockStack[n + 1..];
      var args := Keep(s.stack, |block.branchRt|);
      Continue(s.(blockStack := blockStack, pc := block.branch, stack := args + block.stack))
  }

  function EndBlock(s: State): StepResult {
    if s.blockStack == [] then ReturnFunc(s)
    else
      var block := s.blockStack[0];
      var args := Keep(s.stack, |block.contRt|);
      Continue(s.(blockStack := s.blockStack[1..], pc := block.cont, stack := args + block.stack))
  }

  function ExecBlock(s: State, isLoop: bool, bt: Option<FuncType>, expr: seq<Instr>): StepResult {
    var sig := BlockSig(bt);
    if |s.stack| < |sig.params| then FaultStep
    else
      var block := OpenBlock(
        if isLoop then expr else s.pc,
        if isLoop then sig.params else sig.results,
        s.pc, sig.results, s.stack[|sig.params|..], isLoop);
      Continue(s.(pc := expr, blockStack := [block] + s.blockStack))
  }

  function InitialLocals(f: Func, args: seq<Value>): seq<Value> {
    Reverse(args) + Map(Zero, f.locals)
  }

  /** The callee runs in env; the caller, suspended, keeps its own. */
  function ExecFunc(s: State, tail: bool, env: Linked, f: Func): State {
    var args, rest := Keep(s.stack, |f.ty.params|), Rest(s.stack, |f.ty.params|);
    State(
      if tail then s.returnState else Some(s.(stack := rest)),
      [], InitialLocals(f, args), f.body, [], f.ty.results, env)
  }

  function CallFunc(s: State, tail: bool, idx: nat): StepResult {
    if s.env.Callable(idx) then Continue(ExecFunc(s, tail, s.env.HomeOf(idx), s.env.own.funcs[idx])) else FaultStep
  }

  /**
   * The label a br_table jumps to. The index is compared unsigned, with the length modulo 2^32, but it is the
   * signed index that is looked up.
   */
  function TableTarget(targets: seq<nat>, default: nat, index: int32): Option<nat> {
    if U(S32, index) >= |targets| % 0x1_0000_0000 then Some(default)
    else if index < 0 then None
    else Some(targets[index])
  }

  // ---------------------------------------------------------------- one instruction

  /** The effect of an instruction that neither transfers control nor calls. */
  datatype Plain = PlainOk(stack: seq<Value>, locals: seq<Value>) | PlainTrap(trap: Trap) | PlainFault

  predicate IsPlain(i: Instr) {
    !(i.Block? || i.Loop? || i.IfElse? || i.Br? || i.BrIf? || i.BrTable? || i.Return? || i.Call? || i.ReturnCall?)
  }

  function ExecPlain(m: Module, i: Instr, stack: seq<Value>, locals: seq<Value>): Plain
    requires IsPlain(i)
  {
    match i
    case Unreachable => PlainTrap(UnreachableTrap)
    case Nop => PlainOk(stack, locals)
    case I32Const(n) => PlainOk([I32(n)] + stack, locals)
    case I64Const(n) => PlainOk([I64(n)] + stack, locals)
    case IBinop(nn, op) =>
      (match Pop2(nn, stack)
       case None => PlainFault
       case Some((a, b, rest)) =>
         match ApplyBinop(nn, op, a, b)
           case Trapped(t) => PlainTrap(t)
           case Ok(r) => PlainOk([Make(nn, r)] + rest, locals))
    case IRelop(nn, rel) =>
      (match Pop2(nn, stack)
       case None => PlainFault
       case Some((a, b, rest)) => PlainOk([OfBool(ApplyRelop(nn, rel, a, b))] + rest, locals))
    case IEqz(nn) =>
      if |stack| < 1 || stack[0].Type() != TypeOf(nn) then PlainFault
      else PlainOk([OfBool(stack[0].Int() == 0)] + stack[1..], locals)
    case Drop => if stack == [] then PlainFault else PlainOk(stack[1..], locals)
    case Select =>
      (match PopI32(stack)
       case None => PlainFault
       case Some((b, rest)) =>
         if |rest| < 2 then PlainFault
         else PlainOk([if b != 0 then rest[1] else rest[0]] + rest[2..], locals))
    case LocalGet(k) => if k < |locals| then PlainOk([locals[k]] + stack, locals) else PlainFault
    case LocalSet(k) =>
      if stack == [] || k >= |locals| then PlainFault
      else PlainOk(stack[1..], locals[k := stack[0]])
    case LocalTee(k) =>
      if stack == [] || k >= |locals| then PlainFault
      else PlainOk(stack, locals[k := stack[0]])
    case GlobalGet(k) => if k < |m.globals| then PlainOk([m.globals[k]] + stack, locals) else PlainFault
  }

  /** One instruction; the program counter already points past it. */
  function ExecInstr(i: Instr, s: State): StepResult {
    match i
    case Block(bt, body) => ExecBlock(s, false, bt, body)
    case Loop(bt, body) => ExecBlock(s, true, bt, body)
    case IfElse(bt, thn, els) =>
      (match PopI32(s.stack)
       case None => FaultStep
       case Some((b, rest)) => ExecBlock(s.(stack := rest), false, bt, if b != 0 then thn else els))
    case Br(k) => Branch(s, k)
    case BrIf(k) =>
      (match PopI32(s.stack)
       case None => FaultStep
       case Some((b, rest)) => if b != 0 then Branch(s.(stack := rest), k) else Continue(s.(stack := rest)))
    case BrTable(targets, k) =>
      (match PopI32(s.stack)
       case None => FaultStep
       case Some((n, rest)) =>
         match TableTarget(targets, k, n)
           case None => FaultStep
           case Some(target) => Branch(s.(stack := rest), target))
    case Return => ReturnFunc(s)
    case Call(f) => CallFunc(s, false, f)
    case ReturnCall(f) => CallFunc(s, true, f)
    case _ =>
      (match ExecPlain(s.env.own, i, s.stack, s.locals)
       case PlainFault => FaultStep
       case PlainTrap(t) => TrapStep(t)
       case PlainOk(stack, locals) => Continue(s.(stack := stack, locals := locals)))
  }

  /** One turn of the interpreter's loop. */
  function Step(s: State): StepResult {
    if s.pc == [] then EndBlock(s) else ExecInstr(s.pc[0], s.(pc := s.pc[1..]))
  }

  /** The interpreter's loop, given up after a number of turns. */
  function Run(fuel: nat, s: State): RunResult
    decreases fuel, 0
  {
    if fuel == 0 then OutOfFuel else Resume(fuel - 1, Step(s))
  }

  function Resume(fuel: nat, r: StepResult): RunResult
    decreases fuel, 1
  {
    match r
    case Returned(values) => Done(values)
    case TrapStep(t) => TrapRun(t)
    case FaultStep => Fault
    case Continue(s) => Run(fuel, s)
  }

  /** The state in which a function of m.own is entered from outside, its arguments on the stack, last one on top. */
  function Entry(m: Linked, f: Func, stack: seq<Value>): State {
    ExecFunc(State(None, stack, stack, [], [], [], m), true, m, f)
  }
}
