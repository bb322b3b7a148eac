/**
 * What single instructions do, on operand stacks written out: which operand is which, which label a branch table
 * takes, what a block leaves where it is left, what a callee finds and what its caller finds afterwards.
 */
module Instructions {
  import opened Prelude
  import opened Words
  import opened Wasm
  import opened Operators
  import opened Machine

  /** The state with another operand stack. */
  function On(s: State, stack: seq<Value>): State { s.(stack := stack) }

  /** Taking as many values as there are above the rest takes just these. */
  lemma KeepAbove<T>(values: seq<T>, rest: seq<T>)
    ensures Keep(values + rest, |values|) == values && Rest(values + rest, |values|) == rest
  {
    assert (values + rest)[..|values|] == values && (values + rest)[|values|..] == rest;
  }

  // ---------------------------------------------------------------- instructions without control flow

  /** An integer of either size as a value. */
  function Held(nn: Size, x: int): Value
    requires Fits(nn, x)
  {
    match nn case S32 => I32(x) case S64 => I64(x)
  }

  lemma TopTwo(nn: Size, a: int, b: int, rest: seq<Value>)
    requires Fits(nn, a) && Fits(nn, b)
    ensures Pop2(nn, [Held(nn, b), Held(nn, a)] + rest) == Some((a, b, rest))
  {
    assert ([Held(nn, b), Held(nn, a)] + rest)[2..] == rest;
  }

  /**
   * The second operand is the one on top. What the operators compute is said by the lemmas on operators; a
   * truth value is a 32-bit 1 or 0.
   */
  lemma BinaryOnTop(nn: Size, op: Binop, rel: Relop, a: int, b: int, rest: seq<Value>, s: State)
    requires Fits(nn, a) && Fits(nn, b)
    ensures var r, s' := ApplyBinop(nn, op, a, b), On(s, [Held(nn, b), Held(nn, a)] + rest);
      && (r.Ok? ==> Fits(nn, r.value))
      && (r.Ok? ==> ExecInstr(IBinop(nn, op), s') == Continue(On(s, [Held(nn, r.value)] + rest)))
      && (r.Trapped? ==> ExecInstr(IBinop(nn, op), s') == TrapStep(r.trap))
      && ExecInstr(IRelop(nn, rel), s')
         == Continue(On(s, [I32(if ApplyRelop(nn, rel, a, b) then 1 else 0)] + rest))
  {
    hide ApplyBinop, ApplyRelop, Pop2;
    TopTwo(nn, a, b, rest);
  }

  lemma EqzOnTop(nn: Size, a: int, rest: seq<Value>, s: State)
    requires Fits(nn, a)
    ensures ExecInstr(IEqz(nn), On(s, [Held(nn, a)] + rest)) == Continue(On(s, [I32(if a == 0 then 1 else 0)] + rest))
  {
    assert ([Held(nn, a)] + rest)[1..] == rest;
  }

  /** Of the two values below the condition, the lower one is for a condition that is not zero. */
  lemma SelectChooses(c: int32, low: Value, high: Value, rest: seq<Value>, s: State)
    ensures ExecInstr(Select, On(s, [I32(c), high, low] + rest))
      == Continue(On(s, [if c != 0 then low else high] + rest))
  {
    var stack := [I32(c), high, low] + rest;
    assert stack[1..] == [high, low] + rest && stack[1..][2..] == rest;
  }

  lemma StackOnly(n: int32, m: int64, v: Value, rest: seq<Value>, s: State)
    ensures ExecInstr(I32Const(n), s) == Continue(On(s, [I32(n)] + s.stack))
    ensures ExecInstr(I64Const(m), s) == Continue(On(s, [I64(m)] + s.stack))
    ensures ExecInstr(Nop, s) == Continue(s) && ExecInstr(Unreachable, s) == TrapStep(UnreachableTrap)
    ensures ExecInstr(Drop, On(s, [v] + rest)) == Continue(On(s, rest))
  {
    assert ([v] + rest)[1..] == rest;
  }

  /** A local set or teed is what a later get of it gives; the other locals stay. */
  lemma SetThenGet(k: nat, j: nat, v: Value, rest: seq<Value>, s: State)
    requires k < |s.locals| && j < |s.locals|
    ensures var (was, teed) := (ExecInstr(LocalSet(k), On(s, [v] + rest)), ExecInstr(LocalTee(k), On(s, [v] + rest)));
      && was.Continue? && was.state == On(s, rest).(locals := was.state.locals)
      && teed == Continue(On(was.state, [v] + rest))
      && ExecInstr(LocalGet(j), was.state) == Continue(On(was.state, [if j == k then v else s.locals[j]] + rest))
  {
    assert ([v] + rest)[1..] == rest;
  }

  lemma GlobalOnTop(k: nat, s: State)
    requires k < |s.env.own.globals|
    ensures ExecInstr(GlobalGet(k), s) == Continue(On(s, [s.env.own.globals[k]] + s.stack))
  {
  }

  // ---------------------------------------------------------------- branches

  lemma TargetIs(targets: seq<nat>, k: nat, n: int32)
    ensures var r, size := TableTarget(targets, k, n), |targets| % 0x1_0000_0000;
      && (0 <= n < size ==> r == Some(targets[n]))
      && (n < 0 && n + 0x1_0000_0000 < size ==> r.None?)
      && ((if n < 0 then n + 0x1_0000_0000 else n) >= size ==> r == Some(k))
  {
    ReadingIsU(S32, n);
    hide U;
  }

  /**
   * The label a branch table takes: the one at the index if there is one, else the last. Only a table of more
   * than 2^31 labels can fault, at the indices whose sign bit is set.
   */
  lemma TableTakes(targets: seq<nat>, k: nat, n: int32, rest: seq<Value>, s: State)
    ensures var r, size := ExecInstr(BrTable(targets, k), On(s, [I32(n)] + rest)), |targets| % 0x1_0000_0000;
      && (0 <= n < size ==> r == ExecInstr(Br(targets[n]), On(s, rest)))
      && (n < 0 && n + 0x1_0000_0000 < size ==> r == FaultStep)
      && ((if n < 0 then n + 0x1_0000_0000 else n) >= size ==> r == ExecInstr(Br(k), On(s, rest)))
  {
    TargetIs(targets, k, n);
    hide Branch, TableTarget;
    assert ([I32(n)] + rest)[1..] == rest;
  }

  /** In the tables of at most 2^31 labels the fault does not arise. */
  lemma TableTakesLabel(targets: seq<nat>, k: nat, n: int32, rest: seq<Value>, s: State)
    requires |targets| <= 0x8000_0000
    ensures ExecInstr(BrTable(targets, k), On(s, [I32(n)] + rest))
      == ExecInstr(Br(if 0 <= n < |targets| then targets[n] else k), On(s, rest))
  {
    hide ExecInstr;
    TableTakes(targets, k, n, rest, s);
  }

  lemma PopCondition(n: int32, rest: seq<Value>)
    ensures PopI32([I32(n)] + rest) == Some((n, rest))
  {
    assert ([I32(n)] + rest)[1..] == rest;
  }

  lemma ConditionTakes(k: nat, n: int32, bt: Option<FuncType>, thn: seq<Instr>, els: seq<Instr>,
                       rest: seq<Value>, s: State)
    ensures ExecInstr(BrIf(k), On(s, [I32(n)] + rest))
      == if n != 0 then ExecInstr(Br(k), On(s, rest)) else Continue(On(s, rest))
    ensures ExecInstr(IfElse(bt, thn, els), On(s, [I32(n)] + rest))
      == ExecInstr(Block(bt, if n != 0 then thn else els), On(s, rest))
  {
    hide Branch, ExecBlock, PopI32;
    PopCondition(n, rest);
  }

  /** A block a branch does not end at makes no difference to it; the outermost label is that of the function. */
  lemma BranchPasses(k: nat, s: State)
    requires k < |s.blockStack|
    ensures ExecInstr(Br(k + 1), s) == ExecInstr(Br(k), s.(blockStack := s.blockStack[1..]))
    ensures ExecInstr(Br(|s.blockStack|), s) == ExecInstr(Return, s)
  {
    var inner := s.blockStack[1..];
    assert s.blockStack[k + 1..] == inner[k..];
    if k < |inner| { assert s.blockStack[k + 2..] == inner[k + 1..]; }
  }

  /** A state inside the block just entered: wherever its own code, locals and operands have got to. */
  predicate Within(s: State, entered: State) {
    s == entered.(pc := s.pc, stack := s.stack, locals := s.locals)
  }

  /**
   * A block begins with its parameters on the operand stack. Left by its end or by its label, with its results on
   * top of whatever, it leaves them above what was below the parameters, and goes on behind the block.
   */
  lemma BlockLeaves(bt: Option<FuncType>, body: seq<Instr>, args: seq<Value>, rest: seq<Value>, s: State,
                    inside: State, results: seq<Value>, junk: seq<Value>)
    requires |args| == (if bt.Some? then |bt.value.params| else 0)
    requires |results| == (if bt.Some? then |bt.value.results| else 0)
    requires inside.stack == results + junk
    ensures var r := ExecInstr(Block(bt, body), On(s, args + rest));
      && r.Continue? && r.state == On(s, args + rest).(pc := body, blockStack := r.state.blockStack)
      && (Within(inside, r.state) ==>
        var after := Continue(On(s, results + rest).(locals := inside.locals));
        && ExecInstr(Br(0), inside) == after
        && (inside.pc == [] ==> Step(inside) == after))
  {
    KeepAbove(args, rest);
    KeepAbove(results, junk);
    hide Keep, Rest;
    var r := ExecInstr(Block(bt, body), On(s, args + rest));
    assert (args + rest)[|args|..] == rest;
    assert r.state.blockStack[1..] == s.blockStack;
  }

  /** A loop the same at its end; its label begins it again, on new parameters. */
  lemma LoopLeaves(bt: Option<FuncType>, body: seq<Instr>, args: seq<Value>, rest: seq<Value>, s: State,
                   inside: State, again: seq<Value>, results: seq<Value>, junk: seq<Value>)
    requires |args| == |again| == (if bt.Some? then |bt.value.params| else 0)
    requires |results| == (if bt.Some? then |bt.value.results| else 0)
    ensures var r := ExecInstr(Loop(bt, body), On(s, args + rest));
      && r.Continue? && r.state == On(s, args + rest).(pc := body, blockStack := r.state.blockStack)
      && (Within(inside, r.state) ==>
        && ExecInstr(Br(0), On(inside, again + junk))
           == Continue(On(r.state, again + rest).(locals := inside.locals))
        && (inside.pc == [] ==>
            Step(On(inside, results + junk)) == Continue(On(s, results + rest).(locals := inside.locals))))
  {
    KeepAbove(again, junk);
    KeepAbove(results, junk);
    hide Keep, Rest;
    var r := ExecInstr(Loop(bt, body), On(s, args + rest));
    assert (args + rest)[|args|..] == rest;
    assert r.state.blockStack[1..] == s.blockStack && r.state.blockStack[0..] == r.state.blockStack;
  }

  // ---------------------------------------------------------------- calls

  /** The locals a function begins with: the arguments in order, then zeros of the declared types. */
  ghost predicate BeginsWith(locals: seq<Value>, args: seq<Value>, declared: seq<ValType>) {
    && |locals| == |args| + |declared| && locals[..|args|] == args
    && forall k :: 0 <= k < |declared| ==> locals[|args| + k] == if declared[k].TI32? then I32(0) else I64(0)
  }

  lemma LocalsBegin(f: Func, args: seq<Value>, down: seq<Value>)
    requires |down| == |args| && forall k :: 0 <= k < |args| ==> down[k] == args[|args| - 1 - k]
    ensures BeginsWith(InitialLocals(f, down), args, f.locals)
  {
    assert Reverse(down) == args;
    var zeros := Map(Zero, f.locals);
    assert InitialLocals(f, down) == args + zeros;
    forall k | 0 <= k < |f.locals|
      ensures InitialLocals(f, down)[|args| + k] == if f.locals[k].TI32? then I32(0) else I64(0)
    {
      assert (args + zeros)[|args| + k] == zeros[k];
    }
  }

  /**
   * A call: the callee begins at its body with no operands, in its own instance, on the arguments, the last of
   * which was on top, and zeros; an ordinary call leaves its caller what is below the arguments, a tail call
   * leaves the caller's caller.
   */
  lemma CallEnters(idx: nat, args: seq<Value>, down: seq<Value>, rest: seq<Value>, s: State)
    requires |down| == |args| && forall k :: 0 <= k < |args| ==> down[k] == args[|args| - 1 - k]
    requires idx < |s.env.own.funcs| ==> |args| == |s.env.own.funcs[idx].ty.params|
    ensures var call, tail := ExecInstr(Call(idx), On(s, down + rest)), ExecInstr(ReturnCall(idx), On(s, down + rest));
      if idx < |s.env.own.funcs| && s.env.own.funcs[idx].home < |s.env.all| then
        var f := s.env.own.funcs[idx];
        && call.Continue? && BeginsWith(call.state.locals, args, f.locals)
        && call.state == State(Some(On(s, rest)), [], call.state.locals, f.body, [], f.ty.results,
             Linked(s.env.all[f.home], s.env.all))
        && tail == Continue(call.state.(returnState := s.returnState))
      else call == FaultStep && tail == FaultStep
  {
    KeepAbove(down, rest);
    hide Keep, Rest, InitialLocals, BeginsWith;
    if s.env.Callable(idx) { LocalsBegin(s.env.own.funcs[idx], args, down); }
  }

  /** Returning, or ending the body, with results on top of whatever: they are put above what the caller had. */
  lemma CallReturns(s: State, results: seq<Value>, junk: seq<Value>)
    requires |results| == |s.funcRt| && s.stack == results + junk
    ensures var after := match s.returnState
        case None => Returned(results)
        case Some(caller) => Continue(On(caller, results + caller.stack));
      && ExecInstr(Return, s) == after
      && (s.pc == [] && s.blockStack == [] ==> Step(s) == after)
  {
    KeepAbove(results, junk);
    hide Keep;
  }

  /** The entry from outside: the same, with nobody to return to. */
  lemma EntryBegins(m: Linked, f: Func, args: seq<Value>, down: seq<Value>, rest: seq<Value>)
    requires |args| == |f.ty.params|
    requires |down| == |args| && forall k :: 0 <= k < |args| ==> down[k] == args[|args| - 1 - k]
    ensures var s := Entry(m, f, down + rest);
      && BeginsWith(s.locals, args, f.locals)
      && s == State(None, [], s.locals, f.body, [], f.ty.results, m)
  {
    KeepAbove(down, rest);
    hide Keep, Rest, InitialLocals, BeginsWith;
    LocalsBegin(f, args, down);
  }
}
