/** The control machine computes exactly the structured semantics, turn for turn. */
module Refinement {
  import opened Prelude
  import opened Wasm
  import opened Machine
  import opened Structured

  /** How the machine goes on from a state whose current sequence has had outcome o. */
  function Finish(o: Outcome, s: State): RunResult {
    match o
    case Normal(k, stack, locals) => Run(k, s.(pc := [], stack := stack, locals := locals))
    case Branching(k, d, stack, locals) => Resume(k, Branch(s.(stack := stack, locals := locals), d))
    case Returning(k, values) => Resume(k, ReturnWith(s, values))
    case Stop(r) => r
  }

  /** The same for one instruction, after which the sequence it heads continues. */
  function FinishInstr(o: Outcome, s: State): RunResult {
    if o.Normal? then Run(o.fuel, s.(stack := o.stack, locals := o.locals)) else Finish(o, s)
  }

  /**
   * The simulation: whatever blocks and callers surround it, running a sequence on the machine is
   * evaluating it and going on from its outcome.
   */
  lemma {:induction false} SeqSimulated(n: nat, s: State)
    ensures Run(n, s) == Finish(EvalSeq(s.env, n, s.pc, s.stack, s.locals, |s.funcRt|), s)
    decreases n, 0
  {
    hide ExecInstr, EvalInstr;
    if s.pc != [] && n > 0 {
      var next := s.(pc := s.pc[1..]);
      InstrSimulated(n - 1, s.pc[0], next);
      var o := EvalInstr(s.env, n - 1, s.pc[0], s.stack, s.locals, |s.funcRt|);
      if o.Normal? {
        SeqSimulated(o.fuel, next.(stack := o.stack, locals := o.locals));
      }
    }
  }

  lemma {:induction false} InstrSimulated(n: nat, i: Instr, s: State)
    ensures Resume(n, ExecInstr(i, s)) == FinishInstr(EvalInstr(s.env, n, i, s.stack, s.locals, |s.funcRt|), s)
    decreases n, 3
  {
    hide ExecPlain, EvalSeq, EvalBlock, EvalLoop, EvalFunc, Run;
    if i.Block? { BlockSimulated(n, BlockSig(i.bt), i.bt, i.body, s); }
    else if i.Loop? { LoopSimulated(n, i.bt, i.body, s); }
    else if i.IfElse? {
      if |s.stack| > 0 && s.stack[0].I32? {
        BlockSimulated(n, BlockSig(i.bt), i.bt, if s.stack[0].i != 0 then i.thn else i.els, s.(stack := s.stack[1..]));
      }
    } else if i.Call? || i.ReturnCall? {
      if s.env.Callable(i.idx) { CallSimulated(n, i.ReturnCall?, s.env.HomeOf(i.idx), s.env.own.funcs[i.idx], s); }
    } else if IsPlain(i) { PlainSimulated(n, i, s); }
    else { JumpSimulated(n, i, s); }
  }

  lemma PlainSimulated(n: nat, i: Instr, s: State)
    requires IsPlain(i)
    ensures Resume(n, ExecInstr(i, s)) == FinishInstr(EvalInstr(s.env, n, i, s.stack, s.locals, |s.funcRt|), s)
  {
  }

  lemma JumpSimulated(n: nat, i: Instr, s: State)
    requires i.Br? || i.BrIf? || i.BrTable? || i.Return?
    ensures Resume(n, ExecInstr(i, s)) == FinishInstr(EvalInstr(s.env, n, i, s.stack, s.locals, |s.funcRt|), s)
  {
  }

  lemma {:induction false} BlockSimulated(n: nat, sig: FuncType, bt: Option<FuncType>, body: seq<Instr>, s: State)
    requires sig == BlockSig(bt)
    ensures Resume(n, ExecBlock(s, false, bt, body))
         == FinishInstr(EvalBlock(s.env, n, sig, body, s.stack, s.locals, |s.funcRt|), s)
    decreases n, 1
  {
    if |s.stack| >= |sig.params| {
      var inner := ExecBlock(s, false, bt, body).state;
      SeqSimulated(n, inner);
      BlockLeft(n, sig, bt, body, s, inner, EvalSeq(s.env, n, body, s.stack, s.locals, |s.funcRt|));
    }
  }

  lemma BlockLeft(n: nat, sig: FuncType, bt: Option<FuncType>, body: seq<Instr>, s: State, inner: State, o: Outcome)
    requires sig == BlockSig(bt) && |s.stack| >= |sig.params| && inner == ExecBlock(s, false, bt, body).state
    requires o == EvalSeq(s.env, n, body, s.stack, s.locals, |s.funcRt|)
    ensures Finish(o, inner) == FinishInstr(EvalBlock(s.env, n, sig, body, s.stack, s.locals, |s.funcRt|), s)
  {
    hide EvalSeq, Run, Resume, Branch;
    LeavingSimulated(o, inner, s);
    if o.Branching? && o.depth == 0 { BlockBranchedTo(o, bt, body, s, inner); }
  }

  lemma BlockBranchedTo(o: Outcome, bt: Option<FuncType>, body: seq<Instr>, s: State, inner: State)
    requires var sig := BlockSig(bt); |s.stack| >= |sig.params| && inner == ExecBlock(s, false, bt, body).state
    requires o.Branching? && o.depth == 0
    ensures var sig := BlockSig(bt);
      var stack := Keep(o.stack, |sig.results|) + s.stack[|sig.params|..];
      Finish(o, inner) == Run(o.fuel, s.(stack := stack, locals := o.locals))
  {
    hide Run;
  }

  /** Ending the innermost block, or branching past it, is what the enclosing sequence sees. */
  lemma LeavingSimulated(o: Outcome, inner: State, s: State)
    requires inner.blockStack != []
      && inner == s.(pc := inner.pc, stack := inner.stack, locals := inner.locals, blockStack := inner.blockStack)
    requires inner.blockStack[1..] == s.blockStack && inner.blockStack[0].cont == s.pc
    ensures var block := inner.blockStack[0];
      && (o.Normal? ==>
            Finish(o, inner) == FinishInstr(Leave(o.fuel, |block.contRt|, block.stack, o.stack, o.locals), s))
      && (o.Branching? && o.depth > 0 ==> Finish(o, inner) == Finish(o.(depth := o.depth - 1), s))
  {
    if o.Normal? && o.fuel > 0 {
      var block, ended := inner.blockStack[0], inner.(pc := [], stack := o.stack, locals := o.locals);
      var left := s.(stack := Keep(o.stack, |block.contRt|) + block.stack, locals := o.locals);
      assert EndBlock(ended) == Continue(left);
      assert Run(o.fuel, ended) == Resume(o.fuel - 1, Continue(left)) == Run(o.fuel - 1, left);
    }
    if o.Branching? && 0 < o.depth <= |s.blockStack| {
      assert inner.blockStack[o.depth..] == s.blockStack[o.depth - 1..];
      assert inner.blockStack[o.depth + 1..] == s.blockStack[o.depth..];
    }
  }

  lemma {:induction false} LoopSimulated(n: nat, bt: Option<FuncType>, body: seq<Instr>, s: State)
    ensures Resume(n, ExecBlock(s, true, bt, body))
         == FinishInstr(EvalLoop(s.env, n, BlockSig(bt), body, s.stack, s.locals, |s.funcRt|), s)
    decreases n, 2
  {
    var sig := BlockSig(bt);
    if |s.stack| >= |sig.params| {
      IterationsSimulated(n, sig, body, s.stack[|sig.params|..], s, ExecBlock(s, true, bt, body).state);
    }
  }

  /** s is the state around the loop, inner any state at the head of its body. */
  lemma {:induction false} IterationsSimulated(n: nat, sig: FuncType, body: seq<Instr>, base: seq<Value>, s: State,
      inner: State)
    requires inner == s.(pc := body, stack := inner.stack, locals := inner.locals,
                         blockStack := [OpenBlock(body, sig.params, s.pc, sig.results, base, true)] + s.blockStack)
    ensures Run(n, inner) == FinishInstr(LoopOn(s.env, n, sig, body, base, inner.stack, inner.locals, |s.funcRt|), s)
    decreases n, 1
  {
    SeqSimulated(n, inner);
    var o := EvalSeq(s.env, n, body, inner.stack, inner.locals, |s.funcRt|);
    LeavingSimulated(o, inner, s);
    if o.Branching? && o.depth == 0 {
      IterationsSimulated(o.fuel, sig, body, base, s,
        inner.(stack := Keep(o.stack, |sig.params|) + base, locals := o.locals));
    }
  }

  lemma {:induction false} CallSimulated(n: nat, tail: bool, env: Linked, f: Func, s: State)
    ensures Run(n, ExecFunc(s, tail, env, f))
         == (match EvalFunc(env, n, f, Keep(s.stack, |f.ty.params|))
             case Returning(k, values) =>
               if tail then Resume(k, ReturnWith(s, values))
               else Run(k, s.(stack := values + Rest(s.stack, |f.ty.params|)))
             case Stop(r) => r)
    decreases n, 1
  {
    var callee := ExecFunc(s, tail, env, f);
    SeqSimulated(n, callee);
    var o := EvalSeq(env, n, callee.pc, [], callee.locals, |f.ty.results|);
    if o.Normal? && o.fuel > 0 {
      var ended, values := callee.(pc := [], stack := o.stack, locals := o.locals), Keep(o.stack, |f.ty.results|);
      assert Run(o.fuel, ended) == Resume(o.fuel - 1, ReturnWith(callee, values));
    }
  }

  /**
   * Refinement: for all linked instances, typed or not, every function, every arguments and every budget,
   * the control machine gives the result of the structured semantics.
   */
  lemma MachineRefinesStructured(m: Linked, n: nat, f: Func, stack: seq<Value>)
    ensures Run(n, Entry(m, f, stack)) == RunFunc(m, n, f, stack)
  {
    CallSimulated(n, true, m, f, State(None, stack, stack, [], [], [], m));
  }
}
