/** Typed states step to typed states and never fault, so typed runs never fault. */
module Soundness {
  import opened Prelude
  import opened Words
  import opened Wasm
  import opened Machine
  import opened Structured
  import opened Refinement
  import opened Typing

  /** The values kept for a label or a return have the types it expects. */
  lemma KeptTyped(stack: seq<Value>, h: nat, expected: seq<ValType>)
    requires h <= |stack| && Ready(TypesOf(stack[..h]), expected)
    ensures TypesOf(Keep(stack, |expected|)) == Reverse(expected)
  {
  }

  /** Values that code waits for may be put on its stack. */
  lemma Push(c: Context, code: seq<Instr>, values: seq<Value>, stack: seq<Value>, end: StackType)
    requires CodeTyped(c, code, TypesOf(values), stack, end)
    ensures CodeTyped(c, code, [], values + stack, end)
  {
    var h: nat :| h <= |stack| && SeqTyped(c, code, TypesOf(values) + TypesOf(stack[..h]), end);
    var h' := |values| + h;
    assert [] + TypesOf((values + stack)[..h']) == TypesOf(values) + TypesOf(stack[..h]);
  }

  /** s runs in one of the instances, and so does whoever waits for it. */
  ghost predicate CallerTyped(all: seq<Module>, s: State, final: seq<ValType>) {
    && s.env.all == all && s.env.own in all
    && match s.returnState
       case None => s.funcRt == final
       case Some(caller) => StateTyped(all, caller, Reverse(s.funcRt), final)
  }

  lemma ReturnTyped(all: seq<Module>, s: State, h: nat, final: seq<ValType>)
    requires CallerTyped(all, s, final)
    requires h <= |s.stack| && Ready(TypesOf(s.stack[..h]), s.funcRt)
    ensures ResultTyped(all, ReturnFunc(s), final)
  {
    KeptTyped(s.stack, h, s.funcRt);
    if s.returnState.Some? {
      var caller := s.returnState.value;
      Push(ContextAt(caller.env.own, TypesOf(caller.locals), caller.blockStack, caller.funcRt), caller.pc,
           Keep(s.stack, |s.funcRt|), caller.stack, EndType(caller.blockStack, caller.funcRt));
    }
  }

  lemma {:induction false} OuterBlocksTyped(m: Module, locals: seq<ValType>, blocks: seq<OpenBlock>, rt: seq<ValType>,
      n: nat)
    requires BlocksTyped(m, locals, blocks, rt) && n <= |blocks|
    ensures BlocksTyped(m, locals, blocks[n..], rt)
  {
    if n > 0 {
      OuterBlocksTyped(m, locals, blocks[1..], rt, n - 1);
      assert blocks[1..][n - 1..] == blocks[n..];
    } else {
      assert blocks[n..] == blocks;
    }
  }

  lemma BranchTyped(all: seq<Module>, s: State, h: nat, n: nat, final: seq<ValType>)
    requires CallerTyped(all, s, final) && BlocksTyped(s.env.own, TypesOf(s.locals), s.blockStack, s.funcRt)
    requires h <= |s.stack| && n <= |s.blockStack|
    requires Ready(TypesOf(s.stack[..h]), Labels(s.blockStack, s.funcRt)[n])
    ensures ResultTyped(all, Branch(s, n), final)
  {
    if n == |s.blockStack| {
      ReturnTyped(all, s, h, final);
    } else {
      var blocks, locals := s.blockStack[n..], TypesOf(s.locals);
      var block := blocks[0];
      OuterBlocksTyped(s.env.own, locals, s.blockStack, s.funcRt, n);
      KeptTyped(s.stack, h, block.branchRt);
      var args := Keep(s.stack, |block.branchRt|);
      if block.isLoop {
        assert (args + block.stack)[..|args|] == args;
        assert [] + TypesOf(args) == Reverse(block.branchRt);
      } else {
        assert blocks[1..] == s.blockStack[n + 1..];
        Push(ContextAt(s.env.own, locals, blocks[1..], s.funcRt), block.cont, args, block.stack,
          EndType(blocks[1..], s.funcRt));
      }
    }
  }

  lemma EndBlockTyped(all: seq<Module>, s: State, h: nat, final: seq<ValType>)
    requires CallerTyped(all, s, final) && BlocksTyped(s.env.own, TypesOf(s.locals), s.blockStack, s.funcRt)
    requires h <= |s.stack| && TypesOf(s.stack[..h]) == EndType(s.blockStack, s.funcRt)
    ensures ResultTyped(all, EndBlock(s), final)
  {
    if s.blockStack == [] {
      ReturnTyped(all, s, h, final);
    } else {
      var block, outer := s.blockStack[0], s.blockStack[1..];
      KeptTyped(s.stack, h, block.contRt);
      Push(ContextAt(s.env.own, TypesOf(s.locals), outer, s.funcRt), block.cont, Keep(s.stack, |block.contRt|),
        block.stack, EndType(outer, s.funcRt));
    }
  }

  /** Code typed on a whole type goes on from any stack that has it on top. */
  lemma CodeOnStack(c: Context, code: seq<Instr>, t: StackType, stack: seq<Value>, end: StackType)
    requires |t| <= |stack| && TypesOf(stack[..|t|]) == t && SeqTyped(c, code, t, end)
    ensures CodeTyped(c, code, [], stack, end)
  {
    assert [] + TypesOf(stack[..|t|]) == t;
  }

  lemma ExecBlockTyped(all: seq<Module>, s: State, h: nat, isLoop: bool, bt: Option<FuncType>, expr: seq<Instr>,
      t2: StackType, final: seq<ValType>)
    requires CallerTyped(all, s, final) && BlocksTyped(s.env.own, TypesOf(s.locals), s.blockStack, s.funcRt)
    requires h <= |s.stack|
    requires var c := ContextAt(s.env.own, TypesOf(s.locals), s.blockStack, s.funcRt); var sig := BlockSig(bt);
      && BlockTyped(c, sig, expr, if isLoop then sig.params else sig.results, TypesOf(s.stack[..h]), t2)
      && SeqTyped(c, s.pc, t2, EndType(s.blockStack, s.funcRt))
    ensures ResultTyped(all, ExecBlock(s, isLoop, bt, expr), final)
  {
    var sig, locals := BlockSig(bt), TypesOf(s.locals);
    var p, c := |sig.params|, ContextAt(s.env.own, locals, s.blockStack, s.funcRt);
    assert p <= h;
    var block := OpenBlock(
      if isLoop then expr else s.pc,
      if isLoop then sig.params else sig.results,
      s.pc, sig.results, s.stack[p..], isLoop);
    BlockEntered(s.env.own, locals, s.blockStack, s.funcRt, block, expr, s.stack, h, t2, sig);
  }

  lemma BlockEntered(m: Module, locals: seq<ValType>, outer: seq<OpenBlock>, rt: seq<ValType>, block: OpenBlock,
      expr: seq<Instr>, stack: seq<Value>, h: nat, t2: StackType, sig: FuncType)
    requires |sig.params| <= h <= |stack| && block.stack == stack[|sig.params|..] && block.contRt == sig.results
    requires if block.isLoop then block.branch == expr && block.branchRt == sig.params
             else block.branch == block.cont && block.branchRt == sig.results
    requires BlocksTyped(m, locals, outer, rt)
    requires var c := ContextAt(m, locals, outer, rt);
      && BlockTyped(c, sig, expr, block.branchRt, TypesOf(stack[..h]), t2)
      && SeqTyped(c, block.cont, t2, EndType(outer, rt))
    ensures BlocksTyped(m, locals, [block] + outer, rt)
    ensures CodeTyped(ContextAt(m, locals, [block] + outer, rt), expr, [], stack, EndType([block] + outer, rt))
  {
    var c, p := ContextAt(m, locals, outer, rt), |sig.params|;
    var blocks := [block] + outer;
    assert blocks[1..] == outer;
    assert Labels(blocks, rt) == [block.branchRt] + Labels(outer, rt);
    var types := TypesOf(stack[..h]);
    assert TypesOf(stack[..p]) == types[..p] == Reverse(sig.params);
    CodeOnStack(ContextAt(m, locals, blocks, rt), expr, Reverse(sig.params), stack, Reverse(sig.results));
    assert TypesOf(block.stack[..h - p]) == types[p..];
    assert Reverse(sig.results) + TypesOf(block.stack[..h - p]) == t2;
  }

  lemma InitialLocalsTyped(f: Func, args: seq<Value>)
    requires TypesOf(args) == Reverse(f.ty.params)
    ensures TypesOf(InitialLocals(f, args)) == f.ty.params + f.locals
  {
    assert TypesOf(Reverse(args)) == Reverse(TypesOf(args)) == f.ty.params by {
      assert Reverse(Reverse(f.ty.params)) == f.ty.params;
    }
    assert TypesOf(Map(Zero, f.locals)) == f.locals;
    assert TypesOf(InitialLocals(f, args)) == TypesOf(Reverse(args)) + TypesOf(Map(Zero, f.locals));
  }

  lemma CallTyped(all: seq<Module>, s: State, h: nat, tail: bool, idx: nat, final: seq<ValType>)
    requires AllTyped(all) && CallerTyped(all, s, final)
      && BlocksTyped(s.env.own, TypesOf(s.locals), s.blockStack, s.funcRt)
    requires h <= |s.stack| && idx < |s.env.own.funcs| && Ready(TypesOf(s.stack[..h]), s.env.own.funcs[idx].ty.params)
    requires var ty := s.env.own.funcs[idx].ty;
      if tail then ty.results == s.funcRt
      else SeqTyped(ContextAt(s.env.own, TypesOf(s.locals), s.blockStack, s.funcRt), s.pc,
                    Reverse(ty.results) + Below(TypesOf(s.stack[..h]), ty.params), EndType(s.blockStack, s.funcRt))
    ensures ResultTyped(all, CallFunc(s, tail, idx), final)
  {
    var f := s.env.own.funcs[idx];
    var p := |f.ty.params|;
    assert f.home < |all| && FuncTyped(all[f.home], f);
    var callee := ExecFunc(s, tail, s.env.HomeOf(idx), f);
    KeptTyped(s.stack, h, f.ty.params);
    InitialLocalsTyped(f, Keep(s.stack, p));
    assert Labels([], f.ty.results) == [f.ty.results];
    assert [] + TypesOf(callee.stack[..0]) == [];
    if !tail {
      var rest := s.stack[p..];
      assert TypesOf(rest[..h - p]) == Below(TypesOf(s.stack[..h]), f.ty.params);
    }
  }

  /** Replacing values on top of a stack replaces their types. */
  lemma Replaced(stack: seq<Value>, h: nat, pops: StackType, pushed: seq<Value>, t2: StackType)
    requires h <= |stack| && Consumes(TypesOf(stack[..h]), pops, TypesOf(pushed), t2)
    ensures |pops| <= h && |t2| <= |pushed + stack[|pops|..]|
    ensures TypesOf((pushed + stack[|pops|..])[..|t2|]) == t2
    ensures forall k :: 0 <= k < |pops| ==> stack[k].Type() == pops[k]
  {
  }

  /** What ExecPlain must give where the typing says t2. */
  ghost predicate PlainTyped(r: Plain, locals: seq<ValType>, t2: StackType) {
    && !r.PlainFault?
    && (r.PlainOk? ==> |t2| <= |r.stack| && TypesOf(r.stack[..|t2|]) == t2 && TypesOf(r.locals) == locals)
  }

  lemma BinopTyped(m: Module, i: Instr, stack: seq<Value>, locals: seq<Value>, h: nat, t2: StackType)
    requires i.IBinop? && h <= |stack|
    requires Consumes(TypesOf(stack[..h]), [TypeOf(i.nn), TypeOf(i.nn)], [TypeOf(i.nn)], t2)
    ensures PlainTyped(ExecPlain(m, i, stack, locals), TypesOf(locals), t2)
  {
    var pops := [TypeOf(i.nn), TypeOf(i.nn)];
    assert forall k :: 0 <= k < 2 ==> stack[k].Type() == TypesOf(stack[..h])[k];
    var r := ApplyBinop(i.nn, i.op, stack[1].Int(), stack[0].Int());
    if r.Ok? {
      var pushed := [Make(i.nn, r.value)];
      assert TypesOf(pushed) == [TypeOf(i.nn)];
      Replaced(stack, h, pops, pushed, t2);
    }
  }

  /** Tests and comparisons replace operands of one width by a truth value. */
  lemma TestTyped(m: Module, i: Instr, stack: seq<Value>, locals: seq<Value>, h: nat, t2: StackType)
    requires (i.IRelop? || i.IEqz?) && h <= |stack|
    requires var pops := if i.IRelop? then [TypeOf(i.nn), TypeOf(i.nn)] else [TypeOf(i.nn)];
      Consumes(TypesOf(stack[..h]), pops, [TI32], t2)
    ensures PlainTyped(ExecPlain(m, i, stack, locals), TypesOf(locals), t2)
  {
    var pops := if i.IRelop? then [TypeOf(i.nn), TypeOf(i.nn)] else [TypeOf(i.nn)];
    assert forall k :: 0 <= k < |pops| ==> stack[k].Type() == TypesOf(stack[..h])[k];
    var r := ExecPlain(m, i, stack, locals);
    assert TypesOf([r.stack[0]]) == [TI32];
    Replaced(stack, h, pops, [r.stack[0]], t2);
  }

  lemma PushTyped(c: Context, i: Instr, stack: seq<Value>, locals: seq<Value>, h: nat, t2: StackType)
    requires (i.I32Const? || i.I64Const? || i.LocalGet? || i.GlobalGet?) && h <= |stack| && TypesOf(locals) == c.locals
    requires InstrTyped(c, i, TypesOf(stack[..h]), t2)
    ensures PlainTyped(ExecPlain(c.m, i, stack, locals), c.locals, t2)
  {
  }

  lemma MoveTyped(c: Context, i: Instr, stack: seq<Value>, locals: seq<Value>, h: nat, t2: StackType)
    requires (i.Drop? || i.Select? || i.LocalSet? || i.LocalTee?) && h <= |stack| && TypesOf(locals) == c.locals
    requires InstrTyped(c, i, TypesOf(stack[..h]), t2)
    ensures PlainTyped(ExecPlain(c.m, i, stack, locals), c.locals, t2)
  {
    assert forall k :: 0 <= k < h ==> stack[k].Type() == TypesOf(stack[..h])[k];
  }

  lemma ExecPlainTyped(c: Context, i: Instr, stack: seq<Value>, locals: seq<Value>, h: nat, t2: StackType)
    requires IsPlain(i) && h <= |stack| && TypesOf(locals) == c.locals
    requires InstrTyped(c, i, TypesOf(stack[..h]), t2)
    ensures PlainTyped(ExecPlain(c.m, i, stack, locals), c.locals, t2)
  {
    if i.IBinop? { BinopTyped(c.m, i, stack, locals, h, t2); }
    else if i.IRelop? || i.IEqz? { TestTyped(c.m, i, stack, locals, h, t2); }
    else if i.Drop? || i.Select? || i.LocalSet? || i.LocalTee? { MoveTyped(c, i, stack, locals, h, t2); }
    else if !i.Unreachable? && !i.Nop? { PushTyped(c, i, stack, locals, h, t2); }
  }

  /** The code of s, typed at height h with i about to run. */
  ghost predicate AboutToRun(all: seq<Module>, s: State, h: nat, i: Instr, t2: StackType, final: seq<ValType>) {
    var c := ContextAt(s.env.own, TypesOf(s.locals), s.blockStack, s.funcRt);
    && CallerTyped(all, s, final) && BlocksTyped(s.env.own, TypesOf(s.locals), s.blockStack, s.funcRt)
    && h <= |s.stack| && InstrTyped(c, i, TypesOf(s.stack[..h]), t2)
    && SeqTyped(c, s.pc, t2, EndType(s.blockStack, s.funcRt))
  }

  lemma PlainStepTyped(all: seq<Module>, s: State, h: nat, i: Instr, t2: StackType, final: seq<ValType>)
    requires AboutToRun(all, s, h, i, t2, final) && IsPlain(i)
    ensures ResultTyped(all, ExecInstr(i, s), final)
  {
    var c := ContextAt(s.env.own, TypesOf(s.locals), s.blockStack, s.funcRt);
    ExecPlainTyped(c, i, s.stack, s.locals, h, t2);
    var r := ExecPlain(s.env.own, i, s.stack, s.locals);
    if r.PlainOk? {
      CodeOnStack(c, s.pc, t2, r.stack, EndType(s.blockStack, s.funcRt));
    }
  }

  lemma BlockStepTyped(all: seq<Module>, s: State, h: nat, i: Instr, t2: StackType, final: seq<ValType>)
    requires AboutToRun(all, s, h, i, t2, final) && (i.Block? || i.Loop?)
    ensures ResultTyped(all, ExecInstr(i, s), final)
  {
    hide ResultTyped, BlocksTyped, Below, Ready;
    ExecBlockTyped(all, s, h, i.Loop?, i.bt, i.body, t2, final);
  }

  lemma IfStepTyped(all: seq<Module>, s: State, h: nat, i: Instr, t2: StackType, final: seq<ValType>)
    requires AboutToRun(all, s, h, i, t2, final) && i.IfElse?
    ensures ResultTyped(all, ExecInstr(i, s), final)
  {
    PopTyped(s.stack, h);
    hide ResultTyped, BlocksTyped, SeqTyped, CallerTyped;
    ExecBlockTyped(all, s.(stack := s.stack[1..]), h - 1, false, i.bt, if s.stack[0].i != 0 then i.thn else i.els, t2,
      final);
  }

  lemma BranchStepTyped(all: seq<Module>, s: State, h: nat, i: Instr, t2: StackType, final: seq<ValType>)
    requires AboutToRun(all, s, h, i, t2, final) && (i.Br? || i.Return?)
    ensures ResultTyped(all, ExecInstr(i, s), final)
  {
    if i.Br? { BranchTyped(all, s, h, i.depth, final); } else { ReturnTyped(all, s, h, final); }
  }

  lemma BrIfStepTyped(all: seq<Module>, s: State, h: nat, i: Instr, t2: StackType, final: seq<ValType>)
    requires AboutToRun(all, s, h, i, t2, final) && i.BrIf?
    ensures ResultTyped(all, ExecInstr(i, s), final)
  {
    PopTyped(s.stack, h);
    if s.stack[0].i != 0 {
      BranchTyped(all, s.(stack := s.stack[1..]), h - 1, i.depth, final);
    } else {
      CodeOnStack(ContextAt(s.env.own, TypesOf(s.locals), s.blockStack, s.funcRt), s.pc, t2, s.stack[1..],
        EndType(s.blockStack, s.funcRt));
    }
  }

  /** Looking up the target succeeds for every index exactly when the table has at most 2^31 targets, modulo 2^32. */
  lemma TableNeverFails(targets: seq<nat>, k: nat)
    ensures (forall index: int32 :: TableTarget(targets, k, index).Some?) <==> TableFits(targets)
  {
    if !TableFits(targets) {
      var least: int32 := -0x8000_0000;
      assert TableTarget(targets, k, least).None?;
    }
  }

  lemma TargetIsListed(targets: seq<nat>, k: nat, index: int32)
    requires TableFits(targets)
    ensures var target := TableTarget(targets, k, index); target.Some? && (target.value == k || target.value in targets)
  {
    TableNeverFails(targets, k);
  }

  lemma BrTableStepTyped(all: seq<Module>, s: State, h: nat, i: Instr, t2: StackType, final: seq<ValType>)
    requires AboutToRun(all, s, h, i, t2, final) && i.BrTable?
    ensures ResultTyped(all, ExecInstr(i, s), final)
  {
    PopTyped(s.stack, h);
    TargetIsListed(i.targets, i.depth, s.stack[0].i);
    var target := TableTarget(i.targets, i.depth, s.stack[0].i).value;
    hide TableTarget, Branch, BlocksTyped, SeqTyped, CallerTyped, ResultTyped;
    BranchTyped(all, s.(stack := s.stack[1..]), h - 1, target, final);
  }

  lemma CallStepTyped(all: seq<Module>, s: State, h: nat, i: Instr, t2: StackType, final: seq<ValType>)
    requires AllTyped(all) && AboutToRun(all, s, h, i, t2, final) && (i.Call? || i.ReturnCall?)
    ensures ResultTyped(all, ExecInstr(i, s), final)
  {
    hide ResultTyped, SeqTyped, AllTyped, BlocksTyped;
    CallTyped(all, s, h, i.ReturnCall?, i.idx, final);
  }

  lemma InstrStepTyped(all: seq<Module>, s: State, h: nat, i: Instr, t2: StackType, final: seq<ValType>)
    requires AllTyped(all) && AboutToRun(all, s, h, i, t2, final)
    ensures ResultTyped(all, ExecInstr(i, s), final)
  {
    if IsPlain(i) { PlainStepTyped(all, s, h, i, t2, final); }
    else if i.Block? || i.Loop? { BlockStepTyped(all, s, h, i, t2, final); }
    else if i.IfElse? { IfStepTyped(all, s, h, i, t2, final); }
    else if i.Br? || i.Return? { BranchStepTyped(all, s, h, i, t2, final); }
    else if i.BrIf? { BrIfStepTyped(all, s, h, i, t2, final); }
    else if i.BrTable? { BrTableStepTyped(all, s, h, i, t2, final); }
    else { CallStepTyped(all, s, h, i, t2, final); }
  }

  lemma PopTyped(stack: seq<Value>, h: nat)
    requires 0 < h <= |stack| && TypesOf(stack[..h])[0] == TI32
    ensures stack[0].I32? && TypesOf(stack[1..][..h - 1]) == TypesOf(stack[..h])[1..]
  {
  }

  /** Preservation and progress: a step from a typed state is a typed state, the promised results or a trap. */
  lemma StepTyped(all: seq<Module>, s: State, final: seq<ValType>)
    requires AllTyped(all) && StateTyped(all, s, [], final)
    ensures ResultTyped(all, Step(s), final)
  {
    var c, end := ContextAt(s.env.own, TypesOf(s.locals), s.blockStack, s.funcRt), EndType(s.blockStack, s.funcRt);
    var h: nat :| h <= |s.stack| && SeqTyped(c, s.pc, [] + TypesOf(s.stack[..h]), end);
    assert [] + TypesOf(s.stack[..h]) == TypesOf(s.stack[..h]);
    assert SeqTyped(c, s.pc, TypesOf(s.stack[..h]), end);
    if s.pc == [] {
      EndBlockTyped(all, s, h, final);
    } else {
      var mid: StackType :| InstrTyped(c, s.pc[0], TypesOf(s.stack[..h]), mid) && SeqTyped(c, s.pc[1..], mid, end);
      InstrStepTyped(all, s.(pc := s.pc[1..]), h, s.pc[0], mid, final);
    }
  }

  lemma {:induction false} RunTyped(all: seq<Module>, n: nat, s: State, final: seq<ValType>)
    requires AllTyped(all) && StateTyped(all, s, [], final)
    ensures !Run(n, s).Fault?
    ensures Run(n, s).Done? ==> TypesOf(Run(n, s).values) == Reverse(final)
  {
    if n > 0 {
      StepTyped(all, s, final);
      var r := Step(s);
      if r.Continue? {
        RunTyped(all, n - 1, r.state, final);
      }
    }
  }

  /**
   * Soundness: a call of a typed function on arguments of its types never faults, and what it returns has
   * its result types.
   */
  lemma CallsAreSafe(m: Linked, n: nat, f: Func, stack: seq<Value>)
    requires AllTyped(m.all) && m.own in m.all && FuncTyped(m.own, f)
    requires Ready(TypesOf(stack), f.ty.params)
    ensures !Run(n, Entry(m, f, stack)).Fault?
    ensures Run(n, Entry(m, f, stack)).Done? ==> TypesOf(Run(n, Entry(m, f, stack)).values) == Reverse(f.ty.results)
  {
    var s := Entry(m, f, stack);
    assert stack[..|stack|] == stack;
    KeptTyped(stack, |stack|, f.ty.params);
    InitialLocalsTyped(f, Keep(stack, |f.ty.params|));
    assert Labels([], f.ty.results) == [f.ty.results];
    assert [] + TypesOf(s.stack[..0]) == [];
    assert StateTyped(m.all, s, [], f.ty.results);
    RunTyped(m.all, n, s, f.ty.results);
  }

  /** The same of the structured semantics, through the refinement. */
  lemma StructuredRunsAreSafe(m: Linked, n: nat, f: Func, stack: seq<Value>)
    requires AllTyped(m.all) && m.own in m.all && FuncTyped(m.own, f)
    requires Ready(TypesOf(stack), f.ty.params)
    ensures !RunFunc(m, n, f, stack).Fault?
    ensures RunFunc(m, n, f, stack).Done? ==> TypesOf(RunFunc(m, n, f, stack).values) == Reverse(f.ty.results)
  {
    CallsAreSafe(m, n, f, stack);
    MachineRefinesStructured(m, n, f, stack);
  }

  function LabelOf(s: State, k: nat): seq<ValType> {
    if k <= |s.blockStack| then Labels(s.blockStack, s.funcRt)[k] else []
  }

  /**
   * How many operands the next step pops, and the types of the values it then takes for a label, a return,
   * a block or a call.
   */
  function Wanted(s: State): (nat, seq<ValType>) {
    if s.pc == [] then (0, Reverse(EndType(s.blockStack, s.funcRt))) else
    match s.pc[0]
    case Return => (0, s.funcRt)
    case Br(k) => (0, LabelOf(s, k))
    case BrIf(k) => (1, LabelOf(s, k))
    case BrTable(targets, k) =>
      var target := if s.stack != [] && s.stack[0].I32? then TableTarget(targets, k, s.stack[0].i) else None;
      (1, LabelOf(s, target.GetOr(k)))
    case Block(bt, _) => (0, BlockSig(bt).params)
    case Loop(bt, _) => (0, BlockSig(bt).params)
    case IfElse(bt, _, _) => (1, BlockSig(bt).params)
    case Call(f) => (0, if f < |s.env.own.funcs| then s.env.own.funcs[f].ty.params else [])
    case ReturnCall(f) => (0, if f < |s.env.own.funcs| then s.env.own.funcs[f].ty.params else [])
    case _ => (0, [])
  }

  lemma ReadyIsKept(stack: seq<Value>, h: nat, popped: nat, expected: seq<ValType>)
    requires popped <= h <= |stack| && Ready(TypesOf(stack[..h])[popped..], expected)
    ensures |stack| >= popped + |expected| && TypesOf(Keep(stack[popped..], |expected|)) == Reverse(expected)
  {
  }

  lemma InstrReady(s: State, h: nat, mid: StackType)
    requires s.pc != [] && h <= |s.stack|
    requires InstrTyped(ContextAt(s.env.own, TypesOf(s.locals), s.blockStack, s.funcRt), s.pc[0], TypesOf(s.stack[..h]),
      mid)
    ensures var (p, ts) := Wanted(s); p <= h && Ready(TypesOf(s.stack[..h])[p..], ts)
  {
  }

  /** The stack a typed state takes values from always holds enough of them, of the types expected. */
  lemma KeepsFindEnough(all: seq<Module>, s: State, final: seq<ValType>)
    requires StateTyped(all, s, [], final)
    ensures var (p, ts) := Wanted(s); |s.stack| >= p + |ts| && TypesOf(Keep(s.stack[p..], |ts|)) == Reverse(ts)
  {
    var c, end := ContextAt(s.env.own, TypesOf(s.locals), s.blockStack, s.funcRt), EndType(s.blockStack, s.funcRt);
    var h: nat :| h <= |s.stack| && SeqTyped(c, s.pc, [] + TypesOf(s.stack[..h]), end);
    assert [] + TypesOf(s.stack[..h]) == TypesOf(s.stack[..h]);
    assert SeqTyped(c, s.pc, TypesOf(s.stack[..h]), end);
    var (p, ts) := Wanted(s);
    if s.pc == [] {
      assert Reverse(ts) == end;
    } else {
      var mid: StackType :| InstrTyped(c, s.pc[0], TypesOf(s.stack[..h]), mid) && SeqTyped(c, s.pc[1..], mid, end);
      InstrReady(s, h, mid);
    }
    ReadyIsKept(s.stack, h, p, ts);
  }
}
