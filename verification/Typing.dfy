/**
 * Instruction typing of section 3.3 of the WebAssembly Core Specification 2.0, and what it means
 * for a whole machine state to be typed. Stack types are written top first, like stacks, so the
 * results of a function type appear reversed.
 */
module Typing {
  import opened Prelude
  import opened Wasm
  import opened Machine

  type StackType = seq<ValType>

  /**
   * What typing an instruction consults: its module, the locals, and the labels in scope, innermost first;
   * the last one is the function's.
   */
  datatype Context = Context(m: Module, locals: seq<ValType>, labels: seq<seq<ValType>>, rt: seq<ValType>)

  function TypesOf(vs: seq<Value>): (ts: seq<ValType>)
    ensures |ts| == |vs|
    ensures forall k {:trigger ts[k]} :: 0 <= k < |vs| ==> ts[k] == vs[k].Type()
  {
    seq(|vs|, k requires 0 <= k < |vs| => vs[k].Type())
  }

  /** t starts, from the top, with the values a label or function expects. */
  predicate Ready(t: StackType, expected: seq<ValType>) {
    Reverse(expected) <= t
  }

  function Below(t: StackType, expected: seq<ValType>): StackType
    requires Ready(t, expected)
  {
    t[|expected|..]
  }

  /** pops and pushes, under any other values. */
  predicate Consumes(t1: StackType, pops: StackType, pushes: StackType, t2: StackType) {
    pops <= t1 && t2 == pushes + t1[|pops|..]
  }

  /** Not part of the specification: the interpreter looks up a signed index, as TableNeverFails has it. */
  predicate TableFits(targets: seq<nat>) {
    |targets| % 0x1_0000_0000 <= 0x8000_0000
  }

  ghost predicate InstrTyped(c: Context, i: Instr, t1: StackType, t2: StackType)
    decreases i
  {
    match i
    case Unreachable => true
    case Nop => t1 == t2
    case I32Const(_) => Consumes(t1, [], [TI32], t2)
    case I64Const(_) => Consumes(t1, [], [TI64], t2)
    case IBinop(nn, _) => Consumes(t1, [TypeOf(nn), TypeOf(nn)], [TypeOf(nn)], t2)
    case IRelop(nn, _) => Consumes(t1, [TypeOf(nn), TypeOf(nn)], [TI32], t2)
    case IEqz(nn) => Consumes(t1, [TypeOf(nn)], [TI32], t2)
    case Drop => |t1| > 0 && t2 == t1[1..]
    case Select => |t1| > 2 && t1[0] == TI32 && t1[1] == t1[2] && t2 == t1[2..]
    case LocalGet(k) => k < |c.locals| && Consumes(t1, [], [c.locals[k]], t2)
    case LocalSet(k) => k < |c.locals| && Consumes(t1, [c.locals[k]], [], t2)
    case LocalTee(k) => k < |c.locals| && Consumes(t1, [c.locals[k]], [c.locals[k]], t2)
    case GlobalGet(k) => k < |c.m.globals| && Consumes(t1, [], [c.m.globals[k].Type()], t2)
    case Block(bt, body) =>
      BlockTyped(c, BlockSig(bt), body, BlockSig(bt).results, t1, t2)
    case Loop(bt, body) =>
      BlockTyped(c, BlockSig(bt), body, BlockSig(bt).params, t1, t2)
    case IfElse(bt, thn, els) =>
      && |t1| > 0 && t1[0] == TI32
      && BlockTyped(c, BlockSig(bt), thn, BlockSig(bt).results, t1[1..], t2)
      && BlockTyped(c, BlockSig(bt), els, BlockSig(bt).results, t1[1..], t2)
    case Br(k) => k < |c.labels| && Ready(t1, c.labels[k])
    case BrIf(k) => |t1| > 0 && t1[0] == TI32 && t2 == t1[1..] && k < |c.labels| && Ready(t2, c.labels[k])
    case BrTable(targets, k) =>
      && |t1| > 0 && t1[0] == TI32 && TableFits(targets)
      && k < |c.labels| && Ready(t1[1..], c.labels[k])
      && forall d <- targets :: d < |c.labels| && Ready(t1[1..], c.labels[d])
    case Return => Ready(t1, c.rt)
    case Call(f) =>
      f < |c.m.funcs| && Consumes(t1, Reverse(c.m.funcs[f].ty.params), Reverse(c.m.funcs[f].ty.results), t2)
    case ReturnCall(f) =>
      f < |c.m.funcs| && Ready(t1, c.m.funcs[f].ty.params) && c.m.funcs[f].ty.results == c.rt
  }

  /** A block whose body sees only its parameters, under one more label. */
  ghost predicate BlockTyped(c: Context, sig: FuncType, body: seq<Instr>, lbl: seq<ValType>, t1: StackType,
      t2: StackType)
    decreases body, 1
  {
    && Consumes(t1, Reverse(sig.params), Reverse(sig.results), t2)
    && SeqTyped(c.(labels := [lbl] + c.labels), body, Reverse(sig.params), Reverse(sig.results))
  }

  ghost predicate SeqTyped(c: Context, es: seq<Instr>, t1: StackType, t2: StackType)
    decreases es, 0
  {
    if es == [] then t1 == t2
    else exists mid: StackType :: InstrTyped(c, es[0], t1, mid) && SeqTyped(c, es[1..], mid, t2)
  }

  ghost predicate FuncTyped(m: Module, f: Func) {
    SeqTyped(Context(m, f.ty.params + f.locals, [f.ty.results], f.ty.results), f.body, [], Reverse(f.ty.results))
  }

  /** Every function of every instance belongs to one of them, and is typed there. */
  ghost predicate AllTyped(all: seq<Module>) {
    forall m <- all :: forall f <- m.funcs :: f.home < |all| && FuncTyped(all[f.home], f)
  }

  // ---------------------------------------------------------------- machine states

  function Labels(blocks: seq<OpenBlock>, rt: seq<ValType>): (ls: seq<seq<ValType>>)
    ensures |ls| == |blocks| + 1
    ensures forall k {:trigger ls[k]} :: 0 <= k < |blocks| ==> ls[k] == blocks[k].branchRt
  {
    seq(|blocks|, k requires 0 <= k < |blocks| => blocks[k].branchRt) + [rt]
  }

  function ContextAt(m: Module, locals: seq<ValType>, blocks: seq<OpenBlock>, rt: seq<ValType>): Context {
    Context(m, locals, Labels(blocks, rt), rt)
  }

  /** The types the current sequence must end with. */
  function EndType(blocks: seq<OpenBlock>, rt: seq<ValType>): StackType {
    Reverse(if blocks == [] then rt else blocks[0].contRt)
  }

  /** The code runs on from these values above some of those of a stack. */
  ghost predicate CodeTyped(c: Context, code: seq<Instr>, pushed: StackType, stack: seq<Value>, end: StackType) {
    exists h: nat :: h <= |stack| && SeqTyped(c, code, pushed + TypesOf(stack[..h]), end)
  }

  ghost predicate BlocksTyped(m: Module, locals: seq<ValType>, blocks: seq<OpenBlock>, rt: seq<ValType>) {
    blocks == [] ||
    var b, outer := blocks[0], blocks[1..];
    && CodeTyped(ContextAt(m, locals, outer, rt), b.cont, Reverse(b.contRt), b.stack, EndType(outer, rt))
    && (if b.isLoop
        then SeqTyped(ContextAt(m, locals, blocks, rt), b.branch, Reverse(b.branchRt), Reverse(b.contRt))
        else b.branch == b.cont && b.branchRt == b.contRt)
    && BlocksTyped(m, locals, outer, rt)
  }

  /**
   * s runs in one of the instances, as its callers do, goes on once values of the given types are pushed,
   * and the whole run ends with result types final.
   */
  ghost predicate StateTyped(all: seq<Module>, s: State, pushed: StackType, final: seq<ValType>)
    decreases s
  {
    var locals := TypesOf(s.locals);
    && s.env.all == all && s.env.own in all
    && CodeTyped(ContextAt(s.env.own, locals, s.blockStack, s.funcRt), s.pc, pushed, s.stack,
      EndType(s.blockStack, s.funcRt))
    && BlocksTyped(s.env.own, locals, s.blockStack, s.funcRt)
    && (match s.returnState
        case None => s.funcRt == final
        case Some(caller) => StateTyped(all, caller, Reverse(s.funcRt), final))
  }

  /** A step result a typed state may have: a typed state, the promised results, or a trap, never a fault. */
  ghost predicate ResultTyped(all: seq<Module>, r: StepResult, final: seq<ValType>) {
    match r
    case Continue(s) => StateTyped(all, s, [], final)
    case Returned(values) => TypesOf(values) == Reverse(final)
    case TrapStep(_) => true
    case FaultStep => false
  }
}
