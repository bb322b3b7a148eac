/** Bounded quantification: the code generated for it, and what one pass through its loop does. */
module WeaselQuantifier {
  import opened Prelude
  import W = Wasm
  import opened Machine
  import opened Structured
  import opened Typing
  import opened Weasel
  import opened WeaselBinders
  import opened WeaselProofs

  // ---------------------------------------------------------------- scope

  /** No variable of a quantifier but those of the k innermost ones. */
  predicate TermScoped(t: Term, k: nat) {
    match t
    case BinderVar(i) => i < k
    case Neg(t1) => TermScoped(t1, k)
    case BinOp(_, t1, t2) => TermScoped(t1, k) && TermScoped(t2, k)
    case _ => true
  }

  predicate PropScoped(p: Prop, k: nat)
    requires Simple(p)
  {
    match p
    case BinPred(_, t1, t2) => TermScoped(t1, k) && TermScoped(t2, k)
    case Not(p1) => PropScoped(p1, k)
    case Const(_) => true
  }

  /** Environments that differ only in what is known of quantifiers further out. */
  predicate Alike(tenv: TypeEnv, tenv': TypeEnv, k: nat) {
    && tenv' == tenv.(binders := tenv'.binders, binderBase := tenv'.binderBase)
    && (k > 0 ==> tenv'.binderBase == tenv.binderBase)
    && k <= |tenv.binders| && k <= |tenv'.binders| && tenv.binders[..k] == tenv'.binders[..k]
  }

  lemma {:induction false} TermAlike(tenv: TypeEnv, tenv': TypeEnv, t: Term, k: nat)
    requires Alike(tenv, tenv', k) && TermScoped(t, k)
    ensures TermGenerate(tenv, t) == TermGenerate(tenv', t)
  {
    match t
    case BinderVar(i) => assert i >= 0 ==> tenv.binders[..k][i] == tenv'.binders[..k][i];
    case Neg(t1) => TermAlike(tenv, tenv', t1, k);
    case BinOp(_, t1, t2) =>
      TermAlike(tenv, tenv', t1, k);
      TermAlike(tenv, tenv', t2, k);
    case _ =>
  }

  lemma {:induction false} PropAlike(tenv: TypeEnv, tenv': TypeEnv, p: Prop, k: nat)
    requires Simple(p) && Alike(tenv, tenv', k) && PropScoped(p, k)
    ensures PropGenerate(tenv, p).Ok? <==> PropGenerate(tenv', p).Ok?
    ensures PropGenerate(tenv, p).Ok? ==> PropGenerate(tenv, p).value.1 == PropGenerate(tenv', p).value.1
  {
    match p
    case BinPred(_, t1, t2) =>
      TermAlike(tenv, tenv', t1, k);
      TermAlike(tenv, tenv', t2, k);
    case Not(p1) => PropAlike(tenv, tenv', p1, k);
    case Const(_) =>
  }

  // ---------------------------------------------------------------- quantifiers

  /**
   * A quantifier not inside another, over lower <= x && x <= upper ==> body. The environment it is compiled
   * in may still hold the quantifiers of earlier clauses of its contract.
   */
  datatype Quant = Quant(
    m: W.Linked, kind: Quantifier, tenv: TypeEnv, env: Env, bt: W.ValType, lower: Term, upper: Term, body: Prop)
  {
    function Statement(): Prop {
      Binder(kind, bt, BinConnect(Imply,
        BinConnect(And, BinPred(Ge, BinderVar(0), lower), BinPred(Le, BinderVar(0), upper)), body))
    }
    /** What the quantifier can refer to from outside. */
    function Bare(): TypeEnv { tenv.(binders := []) }
    function Inner(): TypeEnv { Bare().Enter(bt) }
    /** The truth the accumulator starts with, and the operator that joins the body's truth to it. */
    function Neutral(): bool { kind.Forall? }
    function Combine(): W.Binop { if kind.Forall? then W.And else W.Or }
    function Size(): W.Size { SizeOf(bt) }
    function Index(): nat { tenv.binderBase + 1 }

    /**
     * Well scoped and typed. That it compiles without the earlier quantifiers is that it compiles at all,
     * by CompilesAlike.
     */
    predicate Valid() {
      && env.Types(Bare()) && |tenv.params| + |tenv.results| <= tenv.binderBase
      && env.globals == m.own.globals
      && Simple(body) && PropScoped(body, 1) && TermScoped(lower, 0) && TermScoped(upper, 0)
      && PropGenerate(Bare(), Statement()).Ok?
    }

    /** x within the range of the binder's type, as a value. */
    function At(x: int): Env requires W.InRange(Size(), x) {
      env.(binders := [W.Make(Size(), x)])
    }
    /** The truth of the body at x. */
    function Body(x: int): W.Result<bool> requires Valid() && W.InRange(Size(), x) {
      BodyTyped(x);
      PropValue(Inner(), At(x), body)
    }
    /** The truth accumulated at x. */
    function Joined(acc: bool, x: int): W.Result<bool> requires Valid() && W.InRange(Size(), x) {
      match Body(x)
      case Trapped(trap) => W.Trapped(trap)
      case Ok(b) => W.Ok(Truth(Combine(), acc, b))
    }
    lemma BodyTyped(x: int)
      requires Valid() && W.InRange(Size(), x)
      ensures At(x).Types(Inner()) && PropGenerate(Inner(), body).Ok?
      ensures TermGenerate(Bare(), lower).Ok? && TermGenerate(Bare(), upper).Ok?
      ensures TermGenerate(Bare(), lower).value.1 == TermGenerate(Bare(), upper).value.1 == bt
    {
    }

    function BodyCode(): Code requires Valid() { PropGenerate(Inner(), body).value.1 }
    function LowerCode(): Code requires Valid() { TermGenerate(Bare(), lower).value.0 }
    function UpperCode(): Code requires Valid() { TermGenerate(Bare(), upper).value.0 }
    function LoopCode(): Code requires Valid() { LoopBody(Inner(), bt, Combine(), BodyCode(), UpperCode()) }

    /** Turns spent testing the body at one index, and on one whole iteration. */
    function TestCost(): nat requires Valid() { |BodyCode()| + 6 }
    function IterationCost(): nat requires Valid() { |BodyCode()| + |UpperCode()| + 13 }

    /** The bounds, when they have values. */
    ghost predicate Bounds(lo: int, hi: int) requires Valid() {
      && TermGenerate(Bare(), lower).Ok? && TermGenerate(Bare(), upper).Ok?
      && W.InRange(Size(), lo) && W.InRange(Size(), hi)
      && TermValue(Bare(), env, lower) == W.Ok(W.Make(Size(), lo))
      && TermValue(Bare(), env, upper) == W.Ok(W.Make(Size(), hi))
    }

    /** Locals that hold the variables, with room for the temporary and the binder. */
    ghost predicate Room(locals: seq<W.Value>) { Laid(Bare(), env, locals) && Index() < |locals| }

    /** The only locals the code changes. */
    function Scratch(locals: seq<W.Value>, acc: bool, x: int): seq<W.Value>
      requires Index() < |locals| && tenv.Temp() < |locals| && W.InRange(Size(), x)
    {
      locals[tenv.Temp() := W.OfBool(acc)][Index() := W.Make(Size(), x)]
    }
  }

  function TruthConst(b: bool): W.Instr { if b then PROP_TRUE else PROP_FALSE }

  function MaxOf(nn: W.Size): int { W.Modulus(nn) / 2 - 1 }

  /** The quantifiers of earlier clauses change nothing of the code. */
  lemma CompilesAlike(q: Quant)
    requires Simple(q.body) && PropScoped(q.body, 1) && TermScoped(q.lower, 0) && TermScoped(q.upper, 0)
    ensures PropGenerate(q.tenv, q.Statement()).Ok? <==> PropGenerate(q.Bare(), q.Statement()).Ok?
    ensures PropGenerate(q.tenv, q.Statement()).Ok? ==>
      PropGenerate(q.tenv, q.Statement()).value.1 == PropGenerate(q.Bare(), q.Statement()).value.1
  {
    TermAlike(q.tenv, q.Bare(), q.lower, 0);
    TermAlike(q.tenv, q.Bare(), q.upper, 0);
    PropAlike(q.tenv.Enter(q.bt), q.Inner(), q.body, 1);
    if PropGenerate(q.tenv.Enter(q.bt), q.body).Ok? {
      SimpleKeepsTypes(q.tenv.Enter(q.bt), q.body);
      SimpleKeepsTypes(q.Inner(), q.body);
    }
  }

  /** The environment after the clauses of a contract so far: each is compiled in what the one before left. */
  function After(tenv: TypeEnv, clauses: seq<Prop>): Gen<TypeEnv>
    decreases |clauses|
  {
    if clauses == [] then Ok(tenv) else
    var (tenv', _) :- PropGenerate(tenv, clauses[0]);
    After(tenv', clauses[1..])
  }

  lemma {:induction false} AfterKeeps(tenv: TypeEnv, clauses: seq<Prop>)
    requires After(tenv, clauses).Ok?
    ensures var after := After(tenv, clauses).value;
      after == tenv.(binders := after.binders, binderBase := after.binderBase) && tenv.binderBase <= after.binderBase
    decreases |clauses|
  {
    if clauses != [] {
      BaseAfter(tenv, clauses[0]);
      AfterKeeps(PropGenerate(tenv, clauses[0]).value.0, clauses[1..]);
    }
  }

  /**
   * Any well-scoped clause of a contract, whatever clauses stand before it, is covered by what is proved of
   * quantifiers.
   */
  lemma ClauseIsValid(q: Quant, ty: W.FuncType, earlier: seq<Prop>)
    requires After(BuildTypeEnv(q.m.own, ty), earlier) == Ok(q.tenv) && PropGenerate(q.tenv, q.Statement()).Ok?
    requires Simple(q.body) && PropScoped(q.body, 1) && TermScoped(q.lower, 0) && TermScoped(q.upper, 0)
    requires TypesOf(q.env.params) == ty.params && TypesOf(q.env.results) == ty.results
    requires q.env.binders == [] && q.env.globals == q.m.own.globals
    ensures q.Valid()
  {
    AfterKeeps(BuildTypeEnv(q.m.own, ty), earlier);
    CompilesAlike(q);
  }

  lemma GeneratedShape(q: Quant)
    requires q.Valid()
    ensures PropGenerate(q.tenv, q.Statement()).Ok?
    ensures PropGenerate(q.tenv, q.Statement()).value.1
         == [W.Block(Some(VOID_TO_I32),
           InitCode(q.Index(), q.LowerCode(), TruthConst(q.Neutral())) + [W.Loop(Some(I32_TO_I32), q.LoopCode())])]
  {
    CompilesAlike(q);
    SimpleKeepsTypes(q.Inner(), q.body);
  }

  lemma ScratchKeepsRoom(q: Quant, locals: seq<W.Value>, acc: bool, x: int)
    requires q.Valid() && q.Room(locals) && W.InRange(q.Size(), x)
    ensures q.Room(q.Scratch(locals, acc, x)) && Laid(q.Inner(), q.At(x), q.Scratch(locals, acc, x))
  {
    q.BodyTyped(x);
  }

  lemma InnerLaid(q: Quant, locals: seq<W.Value>, x: int)
    requires q.Valid() && q.Room(locals) && W.InRange(q.Size(), x) && locals[q.Index()] == W.Make(q.Size(), x)
    ensures Laid(q.Inner(), q.At(x), locals)
  {
  }

  lemma AccumulateStep(m: W.Linked, n: nat, op: W.Binop, temp: nat, acc: bool, b: bool, rest: Code,
      stack: seq<W.Value>, locals: seq<W.Value>, rt: nat)
    requires n >= 6 && temp < |locals| && (op.And? || op.Or?)
    ensures var t := Truth(op, acc, b);
      EvalSeq(m, n, AccumulateCode(op, temp) + rest, [W.OfBool(b)] + ([W.OfBool(acc)] + stack), locals, rt)
      == if t then EvalSeq(m, n - 6, rest, [W.OfBool(true)] + stack, locals[temp := W.OfBool(t)], rt)
         else Branching(n - 6, 1, [W.OfBool(false)] + stack, locals[temp := W.OfBool(t)])
  {
    hide EvalSeq, Truth;
    var t := Truth(op, acc, b);
    var locals' := locals[temp := W.OfBool(t)];
    var s1, s2 := [W.OfBool(t)] + stack, [W.OfBool(t)] + ([W.OfBool(t)] + stack);
    var e5 := [W.BrIf(1)] + rest;
    var e4 := [W.IBinop(W.S32, W.Xor)] + e5;
    var e3 := [W.I32Const(1)] + e4;
    var e2 := [W.LocalGet(temp)] + e3;
    var e1 := [W.LocalTee(temp)] + e2;
    assert AccumulateCode(op, temp) + rest == [W.IBinop(W.S32, op)] + e1;
    TruthStep(m, n, op, acc, b, e1, stack, locals, rt);
    PlainStep(m, n - 1, W.LocalTee(temp), e2, s1, locals, rt);
    PlainStep(m, n - 2, W.LocalGet(temp), e3, s1, locals', rt);
    PlainStep(m, n - 3, W.I32Const(1), e4, s2, locals', rt);
    TruthStep(m, n - 4, W.Xor, t, true, e5, s1, locals', rt);
    FlipTruth(t);
    BrIfStep(m, n - 5, 1, !t, rest, s1, locals', rt);
  }

  lemma FlipTruth(t: bool)
    ensures Truth(W.Xor, t, true) == !t
  {
  }

  lemma BrIfStep(m: W.Linked, n: nat, depth: nat, b: bool, rest: Code, stack: seq<W.Value>, locals: seq<W.Value>,
      rt: nat)
    requires n > 0
    ensures EvalSeq(m, n, [W.BrIf(depth)] + rest, [W.OfBool(b)] + stack, locals, rt)
         == if b then Branching(n - 1, depth, stack, locals) else EvalSeq(m, n - 1, rest, stack, locals, rt)
  {
  }

  /** local.get; const 1; add; local.set. */
  lemma IncrementStep(m: W.Linked, n: nat, bt: W.ValType, index: nat, x: int, rest: Code, stack: seq<W.Value>,
      locals: seq<W.Value>, rt: nat)
    requires n >= 4 && index < |locals| && W.InRange(SizeOf(bt), x) && locals[index] == W.Make(SizeOf(bt), x)
    ensures EvalSeq(m, n, [W.LocalGet(index), ConstOf(bt, 1), W.IBinop(SizeOf(bt), W.Add), W.LocalSet(index)] + rest,
      stack, locals, rt)
         == EvalSeq(m, n - 4, rest, stack, locals[index := W.Make(SizeOf(bt), W.Wrap(SizeOf(bt), x + 1))], rt)
  {
    hide EvalSeq;
    var nn := SizeOf(bt);
    var v, one, next := W.Make(nn, x), W.Make(nn, 1), W.Make(nn, W.Wrap(nn, x + 1));
    var e3 := [W.LocalSet(index)] + rest;
    var e2 := [W.IBinop(nn, OpOf(Plus))] + e3;
    var e1 := [ConstOf(bt, 1)] + e2;
    assert [W.LocalGet(index), ConstOf(bt, 1), W.IBinop(nn, W.Add), W.LocalSet(index)] + rest
        == [W.LocalGet(index)] + e1;
    PlainStep(m, n, W.LocalGet(index), e1, stack, locals, rt);
    ConstStep(m, n - 1, bt, 1, e2, [v] + stack, locals, rt);
    ArithStep(m, n - 2, nn, Plus, v, one, e3, stack, locals, rt);
    PlainStep(m, n - 3, W.LocalSet(index), rest, [next] + stack, locals, rt);
    assert ([next] + stack)[1..] == stack;
  }

  /** local.get; the upper bound; le_s; br_if 0: go round again while the index does not exceed the bound. */
  lemma CheckStep(q: Quant, n: nat, x: int, stack: seq<W.Value>, locals: seq<W.Value>, rt: nat)
    requires q.Valid() && q.Room(locals) && W.InRange(q.Size(), x) && locals[q.Index()] == W.Make(q.Size(), x)
    requires n >= |q.UpperCode()| + 3
    ensures EvalSeq(q.m, n, [W.LocalGet(q.Index())] + q.UpperCode() + [W.IRelop(q.Size(), W.Le(W.Signed)), W.BrIf(0)],
      stack, locals, rt)
         == match TermValue(q.Bare(), q.env, q.upper)
            case Trapped(trap) => Stop(TrapRun(trap))
            case Ok(hi) =>
              if x <= hi.Int() then Branching(n - |q.UpperCode()| - 3, 0, stack, locals)
              else Normal(n - |q.UpperCode()| - 3, stack, locals)
  {
    hide EvalSeq;
    var u, v := q.UpperCode(), W.Make(q.Size(), x);
    var e2 := [W.BrIf(0)] + [];
    var e1 := [W.IRelop(q.Size(), RelOf(Le))] + e2;
    assert [W.LocalGet(q.Index())] + u + [W.IRelop(q.Size(), W.Le(W.Signed)), W.BrIf(0)]
        == [W.LocalGet(q.Index())] + (u + e1);
    PlainStep(q.m, n, W.LocalGet(q.Index()), u + e1, stack, locals, rt);
    TermCorrect(q.m, n - 1, q.Bare(), q.env, q.upper, e1, [v] + stack, locals, rt);
    var r := TermValue(q.Bare(), q.env, q.upper);
    if r.Ok? {
      RelStep(q.m, n - 1 - |u|, q.Size(), Le, v, r.value, e2, stack, locals, rt);
      BrIfStep(q.m, n - 2 - |u|, 0, x <= r.value.Int(), [], stack, locals, rt);
      EmptySeq(q.m, n - |u| - 3, stack, locals, rt);
    }
  }

  /** The end of an iteration that leaves 1: move the index on and test it against the bound. */
  function Advance(q: Quant, n: nat, x: int, stack: seq<W.Value>, locals: seq<W.Value>): Outcome
    requires q.Valid() && q.Room(locals) && W.InRange(q.Size(), x) && n >= |q.UpperCode()| + 7
  {
    var x', k := W.Wrap(q.Size(), x + 1), n - |q.UpperCode()| - 7;
    match TermValue(q.Bare(), q.env, q.upper)
    case Trapped(trap) => Stop(TrapRun(trap))
    case Ok(hi) =>
      if x' <= hi.Int() then Branching(k, 0, stack, q.Scratch(locals, true, x'))
        else Normal(k, stack, q.Scratch(locals, true, x'))
  }

  function AdvanceCode(q: Quant): Code requires q.Valid() {
    [W.LocalGet(q.Index()), ConstOf(q.bt, 1), W.IBinop(q.Size(), W.Add), W.LocalSet(q.Index())]
    + ([W.LocalGet(q.Index())] + q.UpperCode() + [W.IRelop(q.Size(), W.Le(W.Signed)), W.BrIf(0)])
  }

  lemma AdvanceStep(q: Quant, n: nat, x: int, stack: seq<W.Value>, locals: seq<W.Value>, rt: nat)
    requires q.Valid() && q.Room(locals) && W.InRange(q.Size(), x) && locals[q.Index()] == W.Make(q.Size(), x)
    requires locals[q.tenv.Temp()] == W.OfBool(true) && n >= |q.UpperCode()| + 7
    ensures EvalSeq(q.m, n, AdvanceCode(q), stack, locals, rt) == Advance(q, n, x, stack, locals)
  {
    hide EvalSeq;
    var x' := W.Wrap(q.Size(), x + 1);
    IncrementStep(q.m, n, q.bt, q.Index(), x,
      [W.LocalGet(q.Index())] + q.UpperCode() + [W.IRelop(q.Size(), W.Le(W.Signed)), W.BrIf(0)], stack, locals, rt);
    ScratchKeepsRoom(q, locals, true, x');
    assert q.Scratch(locals, true, x') == locals[q.Index() := W.Make(q.Size(), x')];
    CheckStep(q, n - 4, x', stack, q.Scratch(locals, true, x'), rt);
  }

  /** One pass through the loop body at index x. */
  lemma Iteration(q: Quant, acc: bool, n: nat, x: int, stack: seq<W.Value>, locals: seq<W.Value>, rt: nat)
    requires q.Valid() && q.Room(locals) && W.InRange(q.Size(), x) && locals[q.Index()] == W.Make(q.Size(), x)
    requires n >= q.IterationCost()
    ensures EvalSeq(q.m, n, q.LoopCode(), [W.OfBool(acc)] + stack, locals, rt)
         == match q.Joined(acc, x)
            case Trapped(trap) => Stop(TrapRun(trap))
            case Ok(t) =>
              if t then Advance(q, n - q.TestCost(), x, [W.OfBool(true)] + stack, locals)
              else Branching(n - q.TestCost(), 1, [W.OfBool(false)] + stack, q.Scratch(locals, false, x))
  {
    hide EvalSeq, Advance, AdvanceCode, AccumulateCode, Truth, TermGenerate, TermValue, TermScoped, PropScoped;
    var temp, op := q.tenv.Temp(), q.Combine();
    var e1 := AccumulateCode(op, temp) + AdvanceCode(q);
    LoopCodeShape(q);
    InnerLaid(q, locals, x);
    q.BodyTyped(x);
    PropCorrect(q.m, n, q.Inner(), q.At(x), q.body, e1, [W.OfBool(acc)] + stack, locals, rt);
    var r := q.Body(x);
    if r.Ok? {
      AccumulateStep(q.m, n - |q.BodyCode()|, op, temp, acc, r.value, AdvanceCode(q), stack, locals, rt);
      var t := Truth(op, acc, r.value);
      assert q.Scratch(locals, t, x) == locals[temp := W.OfBool(t)];
      if t {
        ScratchKeepsRoom(q, locals, true, x);
        AdvanceStep(q, n - q.TestCost(), x, [W.OfBool(true)] + stack, q.Scratch(locals, true, x), rt);
        ScratchTwice(q, n - q.TestCost(), x, [W.OfBool(true)] + stack, locals);
      }
    }
  }

  lemma LoopCodeShape(q: Quant)
    requires q.Valid()
    ensures q.LoopCode() == q.BodyCode() + (AccumulateCode(q.Combine(), q.tenv.Temp()) + AdvanceCode(q))
  {
  }

  lemma ScratchTwice(q: Quant, n: nat, x: int, stack: seq<W.Value>, locals: seq<W.Value>)
    requires q.Valid() && q.Room(locals) && W.InRange(q.Size(), x) && n >= |q.UpperCode()| + 7
    requires q.Room(q.Scratch(locals, true, x))
    ensures Advance(q, n, x, stack, q.Scratch(locals, true, x)) == Advance(q, n, x, stack, locals)
  {
  }
}
