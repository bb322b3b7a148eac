/**
 * A recursive semantics of the same programs, with no program counter, block stack or chain of
 * callers: an instruction sequence ends normally, branches outwards by some number of labels,
 * returns from its function, or stops the run. A budget of loop turns is threaded through, one
 * unit for each instruction and for each block or function body that ends.
 */
module Structured {
  import opened Prelude
  import opened Wasm
  import opened Machine

  datatype Outcome =
    | Normal(fuel: nat, stack: seq<Value>, locals: seq<Value>)
    | Branching(fuel: nat, depth: nat, stack: seq<Value>, locals: seq<Value>)
    | Returning(fuel: nat, values: seq<Value>)
    | Stop(result: RunResult)
  {
    predicate Within(n: nat) {
      Stop? || fuel <= n
    }
    /** Within n, and strictly below it unless the sequence ended normally. */
    predicate Spent(n: nat) {
      Stop? || (if Normal? then fuel <= n else fuel < n)
    }
  }

  function EvalSeq(m: Linked, n: nat, es: seq<Instr>, stack: seq<Value>, locals: seq<Value>, rt: nat): (o: Outcome)
    ensures o.Spent(n)
    decreases n, 0
  {
    if es == [] then Normal(n, stack, locals)
    else if n == 0 then Stop(OutOfFuel)
    else
      match EvalInstr(m, n - 1, es[0], stack, locals, rt)
      case Normal(k, stack', locals') => EvalSeq(m, k, es[1..], stack', locals', rt)
      case o => o
  }

  function EvalInstr(m: Linked, n: nat, i: Instr, stack: seq<Value>, locals: seq<Value>, rt: nat): (o: Outcome)
    ensures o.Within(n)
    decreases n, 3
  {
    match i
    case Block(bt, body) => EvalBlock(m, n, BlockSig(bt), body, stack, locals, rt)
    case Loop(bt, body) => EvalLoop(m, n, BlockSig(bt), body, stack, locals, rt)
    case IfElse(bt, thn, els) =>
      if |stack| == 0 || !stack[0].I32? then Stop(Fault)
      else EvalBlock(m, n, BlockSig(bt), if stack[0].i != 0 then thn else els, stack[1..], locals, rt)
    case Br(k) => Branching(n, k, stack, locals)
    case BrIf(k) =>
      if |stack| == 0 || !stack[0].I32? then Stop(Fault)
      else if stack[0].i != 0 then Branching(n, k, stack[1..], locals)
      else Normal(n, stack[1..], locals)
    case BrTable(targets, k) =>
      if |stack| == 0 || !stack[0].I32? then Stop(Fault)
      else
        (match TableTarget(targets, k, stack[0].i)
         case None => Stop(Fault)
         case Some(target) => Branching(n, target, stack[1..], locals))
    case Return => Returning(n, Keep(stack, rt))
    case Call(f) =>
      if !m.Callable(f) then Stop(Fault)
      else
        var params := |m.own.funcs[f].ty.params|;
        (match EvalFunc(m.HomeOf(f), n, m.own.funcs[f], Keep(stack, params))
         case Returning(k, values) => Normal(k, values + Rest(stack, params), locals)
         case o => o)
    case ReturnCall(f) =>
      if !m.Callable(f) then Stop(Fault)
      else EvalFunc(m.HomeOf(f), n, m.own.funcs[f], Keep(stack, |m.own.funcs[f].ty.params|))
    case _ =>
      match ExecPlain(m.own, i, stack, locals)
      case PlainOk(stack', locals') => Normal(n, stack', locals')
      case PlainTrap(t) => Stop(TrapRun(t))
      case PlainFault => Stop(Fault)
  }

  /** Leave a block whose body ended: keep its results above the values that were below its parameters. */
  function Leave(n: nat, results: nat, base: seq<Value>, stack: seq<Value>, locals: seq<Value>): (o: Outcome)
    ensures o.Within(n)
  {
    if n == 0 then Stop(OutOfFuel) else Normal(n - 1, Keep(stack, results) + base, locals)
  }

  function EvalBlock(m: Linked, n: nat, sig: FuncType, body: seq<Instr>, stack: seq<Value>, locals: seq<Value>,
      rt: nat): (o: Outcome)
    ensures o.Within(n)
    decreases n, 1
  {
    if |stack| < |sig.params| then Stop(Fault)
    else
      var base := stack[|sig.params|..];
      match EvalSeq(m, n, body, stack, locals, rt)
      case Normal(k, stack', locals') => Leave(k, |sig.results|, base, stack', locals')
      case Branching(k, d, stack', locals') =>
        if d == 0 then Normal(k, Keep(stack', |sig.results|) + base, locals')
        else Branching(k, d - 1, stack', locals')
      case o => o
  }

  function EvalLoop(m: Linked, n: nat, sig: FuncType, body: seq<Instr>, stack: seq<Value>, locals: seq<Value>,
      rt: nat): (o: Outcome)
    ensures o.Within(n)
    decreases n, 2
  {
    if |stack| < |sig.params| then Stop(Fault)
    else LoopOn(m, n, sig, body, stack[|sig.params|..], stack, locals, rt)
  }

  /** Run the body again each time it branches to the loop's own label. */
  function LoopOn(m: Linked, n: nat, sig: FuncType, body: seq<Instr>, base: seq<Value>, stack: seq<Value>,
      locals: seq<Value>, rt: nat): (o: Outcome)
    ensures o.Within(n)
    decreases n, 1
  {
    match EvalSeq(m, n, body, stack, locals, rt)
    case Normal(k, stack', locals') => Leave(k, |sig.results|, base, stack', locals')
    case Branching(k, d, stack', locals') =>
      if d == 0 then LoopOn(m, k, sig, body, base, Keep(stack', |sig.params|) + base, locals', rt)
      else Branching(k, d - 1, stack', locals')
    case o => o
  }

  /** A whole function: a branch to its outermost label returns, one beyond it has no target. */
  function EvalFunc(m: Linked, n: nat, f: Func, args: seq<Value>): (o: Outcome)
    ensures o.Returning? || o.Stop?
    ensures o.Within(n)
    decreases n, 1
  {
    var rt := |f.ty.results|;
    match EvalSeq(m, n, f.body, [], InitialLocals(f, args), rt)
    case Normal(k, stack, _) => if k == 0 then Stop(OutOfFuel) else Returning(k - 1, Keep(stack, rt))
    case Branching(k, d, stack, _) => if d == 0 then Returning(k, Keep(stack, rt)) else Stop(Fault)
    case o => o
  }

  /** The result of calling a function from outside within n turns. */
  function RunFunc(m: Linked, n: nat, f: Func, stack: seq<Value>): RunResult {
    match EvalFunc(m, n, f, Keep(stack, |f.ty.params|))
    case Returning(_, values) => Done(values)
    case Stop(r) => r
  }

  // ---------------------------------------------------------------- more budget changes nothing

  function More(o: Outcome, d: nat): Outcome {
    if o.Stop? then o else o.(fuel := o.fuel + d)
  }

  /** An outcome reached within a budget is reached within any larger one, with the surplus left over. */
  lemma {:induction false} SeqMonotone(m: Linked, n: nat, d: nat, es: seq<Instr>, stack: seq<Value>, locals: seq<Value>,
      rt: nat)
    requires EvalSeq(m, n, es, stack, locals, rt) != Stop(OutOfFuel)
    ensures EvalSeq(m, n + d, es, stack, locals, rt) == More(EvalSeq(m, n, es, stack, locals, rt), d)
    decreases n, 0
  {
    if es != [] {
      InstrMonotone(m, n - 1, d, es[0], stack, locals, rt);
      var o := EvalInstr(m, n - 1, es[0], stack, locals, rt);
      if o.Normal? { SeqMonotone(m, o.fuel, d, es[1..], o.stack, o.locals, rt); }
    }
  }

  lemma {:induction false} InstrMonotone(m: Linked, n: nat, d: nat, i: Instr, stack: seq<Value>, locals: seq<Value>,
      rt: nat)
    requires EvalInstr(m, n, i, stack, locals, rt) != Stop(OutOfFuel)
    ensures EvalInstr(m, n + d, i, stack, locals, rt) == More(EvalInstr(m, n, i, stack, locals, rt), d)
    decreases n, 3
  {
    hide EvalSeq, ExecPlain, EvalBlock, EvalFunc, LoopOn;
    match i
    case Block(bt, body) => BlockMonotone(m, n, d, BlockSig(bt), body, stack, locals, rt);
    case Loop(bt, body) =>
      if |stack| >= |BlockSig(bt).params| {
        LoopMonotone(m, n, d, BlockSig(bt), body, stack[|BlockSig(bt).params|..], stack, locals, rt);
      }
    case IfElse(bt, thn, els) =>
      if |stack| > 0 && stack[0].I32? {
        BlockMonotone(m, n, d, BlockSig(bt), if stack[0].i != 0 then thn else els, stack[1..], locals, rt);
      }
    case Call(f) =>
      if m.Callable(f) {
        FuncMonotone(m.HomeOf(f), n, d, m.own.funcs[f], Keep(stack, |m.own.funcs[f].ty.params|));
      }
    case ReturnCall(f) =>
      if m.Callable(f) {
        FuncMonotone(m.HomeOf(f), n, d, m.own.funcs[f], Keep(stack, |m.own.funcs[f].ty.params|));
      }
    case _ =>
  }

  lemma {:induction false} BlockMonotone(m: Linked, n: nat, d: nat, sig: FuncType, body: seq<Instr>, stack: seq<Value>,
      locals: seq<Value>, rt: nat)
    requires EvalBlock(m, n, sig, body, stack, locals, rt) != Stop(OutOfFuel)
    ensures EvalBlock(m, n + d, sig, body, stack, locals, rt) == More(EvalBlock(m, n, sig, body, stack, locals, rt), d)
    decreases n, 1
  {
    hide EvalSeq;
    if |stack| >= |sig.params| { SeqMonotone(m, n, d, body, stack, locals, rt); }
  }

  lemma {:induction false} LoopMonotone(m: Linked, n: nat, d: nat, sig: FuncType, body: seq<Instr>, base: seq<Value>,
                                        stack: seq<Value>, locals: seq<Value>, rt: nat)
    requires LoopOn(m, n, sig, body, base, stack, locals, rt) != Stop(OutOfFuel)
    ensures LoopOn(m, n + d, sig, body, base, stack, locals, rt)
        == More(LoopOn(m, n, sig, body, base, stack, locals, rt), d)
    decreases n, 1
  {
    hide EvalSeq;
    SeqMonotone(m, n, d, body, stack, locals, rt);
    var o := EvalSeq(m, n, body, stack, locals, rt);
    if o.Branching? && o.depth == 0 {
      LoopMonotone(m, o.fuel, d, sig, body, base, Keep(o.stack, |sig.params|) + base, o.locals, rt);
    }
  }

  lemma {:induction false} FuncMonotone(m: Linked, n: nat, d: nat, f: Func, args: seq<Value>)
    requires EvalFunc(m, n, f, args) != Stop(OutOfFuel)
    ensures EvalFunc(m, n + d, f, args) == More(EvalFunc(m, n, f, args), d)
    decreases n, 1
  {
    hide EvalSeq;
    SeqMonotone(m, n, d, f.body, [], InitialLocals(f, args), |f.ty.results|);
  }
}
