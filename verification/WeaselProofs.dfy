/** Code generated for terms and propositions computes what they mean. */
module WeaselProofs {
  import opened Prelude
  import W = Wasm
  import opened Machine
  import opened Structured
  import opened Weasel

  /** The locals of the checking function hold the values of the variables where the environment says. */
  ghost predicate Laid(tenv: TypeEnv, env: Env, locals: seq<W.Value>) {
    && env.Types(tenv)
    && |tenv.params| + |tenv.results| < |locals|
    && (forall i :: 0 <= i < |env.params| ==> locals[i] == env.params[i])
    && (forall i :: 0 <= i < |env.results| ==> locals[tenv.Result(i)] == env.results[i])
    && (forall i :: 0 <= i < |env.binders| ==>
      tenv.BinderAt(i) < |locals| && locals[tenv.BinderAt(i)] == env.binders[i])
  }

  /** What running code that computes r and pushes it, then rest, amounts to. */
  function Then(m: W.Linked, n: nat, r: W.Result<W.Value>, rest: seq<W.Instr>, stack: seq<W.Value>,
      locals: seq<W.Value>, rt: nat): Outcome {
    match r
    case Trapped(trap) => Stop(TrapRun(trap))
    case Ok(v) => EvalSeq(m, n, rest, [v] + stack, locals, rt)
  }

  /** One instruction that changes only the operand stack. */
  lemma PlainStep(m: W.Linked, n: nat, i: W.Instr, rest: seq<W.Instr>, stack: seq<W.Value>, locals: seq<W.Value>,
      rt: nat)
    requires n > 0 && IsPlain(i)
    ensures EvalSeq(m, n, [i] + rest, stack, locals, rt)
         == match ExecPlain(m.own, i, stack, locals)
            case PlainOk(s, l) => EvalSeq(m, n - 1, rest, s, l, rt)
            case PlainTrap(t) => Stop(TrapRun(t))
            case PlainFault => Stop(Fault)
  {
  }

  lemma EmptySeq(m: W.Linked, n: nat, stack: seq<W.Value>, locals: seq<W.Value>, rt: nat)
    ensures EvalSeq(m, n, [], stack, locals, rt) == Normal(n, stack, locals)
  {
  }

  lemma HalfOrLess(a: nat, b: nat)
    requires b >= 2
    ensures 0 <= 2 * (a / b) <= a
  {
  }

  lemma QuotientBound(x: int, y: int)
    requires y != 0
    ensures y != 1 && y != -1 ==> -(if x < 0 then -x else x) <= 2 * W.TruncDiv(x, y) <= (if x < 0 then -x else x)
    ensures y == 1 ==> W.TruncDiv(x, y) == x
    ensures y == -1 ==> W.TruncDiv(x, y) == -x
  {
    if y != 1 && y != -1 {
      HalfOrLess(if x < 0 then -x else x, if y < 0 then -y else y);
    }
  }

  /** The machine's division agrees with exact truncated division: the one quotient that does not fit is min / -1. */
  lemma DivisionAgrees(nn: W.Size, x: int, y: int)
    requires W.InRange(nn, x) && W.InRange(nn, y)
    ensures W.ApplyBinop(nn, W.Div(W.Signed), x, y) == Arith(nn, Div, x, y)
  {
    if y != 0 {
      QuotientBound(x, y);
      var q := W.TruncDiv(x, y);
      assert W.InRange(nn, q) <==> !(x == -(W.Modulus(nn) / 2) && y == -1);
    }
  }

  lemma ArithIsBinop(nn: W.Size, op: Binop, x: int, y: int)
    requires W.InRange(nn, x) && W.InRange(nn, y)
    ensures W.ApplyBinop(nn, OpOf(op), x, y) == Arith(nn, op, x, y)
  {
    if op.Div? { DivisionAgrees(nn, x, y); }
  }

  /** The two operands of an operator are pushed: run it. */
  lemma ArithStep(m: W.Linked, n: nat, nn: W.Size, op: Binop, v1: W.Value, v2: W.Value, rest: seq<W.Instr>,
                  stack: seq<W.Value>, locals: seq<W.Value>, rt: nat)
    requires n > 0 && v1.Type() == v2.Type() == W.TypeOf(nn)
    ensures EvalSeq(m, n, [W.IBinop(nn, OpOf(op))] + rest, [v2] + ([v1] + stack), locals, rt)
         == match Arith(nn, op, v1.Int(), v2.Int())
            case Trapped(trap) => Stop(TrapRun(trap))
            case Ok(r) => EvalSeq(m, n - 1, rest, [W.Make(nn, r)] + stack, locals, rt)
  {
    var i, s := W.IBinop(nn, OpOf(op)), [v2] + ([v1] + stack);
    PlainStep(m, n, i, rest, s, locals, rt);
    assert s[2..] == stack;
    assert Pop2(nn, s) == Some((v1.Int(), v2.Int(), stack));
    ArithIsBinop(nn, op, v1.Int(), v2.Int());
  }

  lemma RelStep(m: W.Linked, n: nat, nn: W.Size, pred: Binpred, v1: W.Value, v2: W.Value, rest: seq<W.Instr>,
                stack: seq<W.Value>, locals: seq<W.Value>, rt: nat)
    requires n > 0 && v1.Type() == v2.Type() == W.TypeOf(nn)
    ensures EvalSeq(m, n, [W.IRelop(nn, RelOf(pred))] + rest, [v2] + ([v1] + stack), locals, rt)
         == EvalSeq(m, n - 1, rest, [W.OfBool(Holds(pred, v1.Int(), v2.Int()))] + stack, locals, rt)
  {
    var i, s := W.IRelop(nn, RelOf(pred)), [v2] + ([v1] + stack);
    PlainStep(m, n, i, rest, s, locals, rt);
    assert s[2..] == stack;
    assert Pop2(nn, s) == Some((v1.Int(), v2.Int(), stack));
  }

  lemma ConstStep(m: W.Linked, n: nat, ty: W.ValType, b: bit, rest: seq<W.Instr>, stack: seq<W.Value>,
      locals: seq<W.Value>, rt: nat)
    requires n > 0
    ensures EvalSeq(m, n, [ConstOf(ty, b)] + rest, stack, locals, rt)
         == EvalSeq(m, n - 1, rest, [W.Make(SizeOf(ty), b)] + stack, locals, rt)
  {
  }

  /** Constants and variables. */
  lemma LeafCorrect(m: W.Linked, n: nat, tenv: TypeEnv, env: Env, t: Term, rest: seq<W.Instr>,
                    stack: seq<W.Value>, locals: seq<W.Value>, rt: nat)
    requires Laid(tenv, env, locals) && env.globals == m.own.globals && TermGenerate(tenv, t).Ok?
    requires n > 0 && !t.Neg? && !t.BinOp?
    ensures |TermGenerate(tenv, t).value.0| == 1
    ensures EvalSeq(m, n, TermGenerate(tenv, t).value.0 + rest, stack, locals, rt)
         == Then(m, n - 1, TermValue(tenv, env, t), rest, stack, locals, rt)
  {
    hide EvalSeq;
    PlainStep(m, n, TermGenerate(tenv, t).value.0[0], rest, stack, locals, rt);
  }

  /**
   * Compiler correctness for terms: on any stack, with any code after it, the generated code pushes
   * exactly the term's value, one turn per instruction, or traps where the term does.
   */
  lemma {:induction false} TermCorrect(m: W.Linked, n: nat, tenv: TypeEnv, env: Env, t: Term, rest: seq<W.Instr>,
                                       stack: seq<W.Value>, locals: seq<W.Value>, rt: nat)
    requires Laid(tenv, env, locals) && env.globals == m.own.globals && TermGenerate(tenv, t).Ok?
    requires n >= |TermGenerate(tenv, t).value.0|
    ensures EvalSeq(m, n, TermGenerate(tenv, t).value.0 + rest, stack, locals, rt)
         == Then(m, n - |TermGenerate(tenv, t).value.0|, TermValue(tenv, env, t), rest, stack, locals, rt)
    decreases t, 1
  {
    hide EvalSeq;
    match t
    case Neg(t1) => NegCorrect(m, n, tenv, env, t1, rest, stack, locals, rt);
    case BinOp(op, t1, t2) => BinOpCorrect(m, n, tenv, env, op, t1, t2, rest, stack, locals, rt);
    case _ => LeafCorrect(m, n, tenv, env, t, rest, stack, locals, rt);
  }

  lemma {:induction false} NegCorrect(m: W.Linked, n: nat, tenv: TypeEnv, env: Env, t1: Term, rest: seq<W.Instr>,
                                      stack: seq<W.Value>, locals: seq<W.Value>, rt: nat)
    requires Laid(tenv, env, locals) && env.globals == m.own.globals && TermGenerate(tenv, t1).Ok?
    requires n >= |TermGenerate(tenv, Neg(t1)).value.0|
    ensures EvalSeq(m, n, TermGenerate(tenv, Neg(t1)).value.0 + rest, stack, locals, rt)
         == Then(m, n - |TermGenerate(tenv, Neg(t1)).value.0|, TermValue(tenv, env, Neg(t1)), rest, stack, locals, rt)
    decreases Neg(t1), 0
  {
    hide EvalSeq, ExecPlain, W.Wrap, W.TruncDiv, W.ApplyBinop;
    var (e1, ty) := TermGenerate(tenv, t1).value;
    var nn := SizeOf(ty);
    var sub, zero := [W.IBinop(nn, OpOf(Minus))] + rest, W.Make(nn, 0);
    assert TermGenerate(tenv, Neg(t1)).value.0 + rest == [ConstOf(ty, 0)] + (e1 + sub);
    ConstStep(m, n, ty, 0, e1 + sub, stack, locals, rt);
    TermCorrect(m, n - 1, tenv, env, t1, sub, [zero] + stack, locals, rt);
    var r1 := TermValue(tenv, env, t1);
    if r1.Ok? {
      ArithStep(m, n - 1 - |e1|, nn, Minus, zero, r1.value, rest, stack, locals, rt);
    }
  }

  lemma {:induction false} BinOpCorrect(m: W.Linked, n: nat, tenv: TypeEnv, env: Env, op: Binop, t1: Term, t2: Term,
      rest: seq<W.Instr>, stack: seq<W.Value>, locals: seq<W.Value>, rt: nat)
    requires Laid(tenv, env, locals) && env.globals == m.own.globals && TermGenerate(tenv, BinOp(op, t1, t2)).Ok?
    requires n >= |TermGenerate(tenv, BinOp(op, t1, t2)).value.0|
    ensures EvalSeq(m, n, TermGenerate(tenv, BinOp(op, t1, t2)).value.0 + rest, stack, locals, rt)
         == Then(m, n - |TermGenerate(tenv, BinOp(op, t1, t2)).value.0|, TermValue(tenv, env, BinOp(op, t1, t2)), rest,
           stack, locals, rt)
    decreases BinOp(op, t1, t2), 0
  {
    hide EvalSeq, Arith;
    var (e1, ty) := TermGenerate(tenv, t1).value;
    var e2 := TermGenerate(tenv, t2).value.0;
    var nn := SizeOf(ty);
    var last := [W.IBinop(nn, OpOf(op))] + rest;
    assert TermGenerate(tenv, BinOp(op, t1, t2)).value.0 + rest == e1 + (e2 + last);
    TermCorrect(m, n, tenv, env, t1, e2 + last, stack, locals, rt);
    var r1, r2 := TermValue(tenv, env, t1), TermValue(tenv, env, t2);
    if r1.Ok? {
      TermCorrect(m, n - |e1|, tenv, env, t2, last, [r1.value] + stack, locals, rt);
      if r2.Ok? {
        ArithStep(m, n - |e1| - |e2|, nn, op, r1.value, r2.value, rest, stack, locals, rt);
      }
    }
  }

  // ---------------------------------------------------------------- propositions

  lemma {:induction false} BitwiseZero(op: W.Binop, width: nat)
    requires op.And? || op.Or? || op.Xor?
    ensures W.Bitwise(op, 0, 0, width) == 0
  {
    if width > 0 { BitwiseZero(op, width - 1); }
  }

  function Truth(op: W.Binop, x: bool, y: bool): bool {
    if op.And? then x && y else if op.Or? then x || y else x != y
  }

  lemma BitwiseOfBits(op: W.Binop, x: bit, y: bit)
    requires op.And? || op.Or? || op.Xor?
    ensures W.Bitwise(op, x, y, 32) == if Truth(op, x == 1, y == 1) then 1 else 0
  {
    BitwiseZero(op, 31);
    assert x / 2 == 0 && y / 2 == 0 && x % 2 == x && y % 2 == y;
  }

  lemma TruthOfBits(op: W.Binop, x: bit, y: bit)
    requires op.And? || op.Or? || op.Xor?
    ensures W.ApplyBinop(W.S32, op, x, y) == W.Ok(if Truth(op, x == 1, y == 1) then 1 else 0)
  {
    hide W.Bitwise;
    BitwiseOfBits(op, x, y);
    assert W.U(W.S32, x) == x && W.U(W.S32, y) == y;
  }

  /** On truth values the bitwise operators are the logical ones. */
  lemma TruthStep(m: W.Linked, n: nat, op: W.Binop, x: bool, y: bool, rest: seq<W.Instr>,
                  stack: seq<W.Value>, locals: seq<W.Value>, rt: nat)
    requires n > 0 && (op.And? || op.Or? || op.Xor?)
    ensures EvalSeq(m, n, [W.IBinop(W.S32, op)] + rest, [W.OfBool(y)] + ([W.OfBool(x)] + stack), locals, rt)
         == EvalSeq(m, n - 1, rest, [W.OfBool(Truth(op, x, y))] + stack, locals, rt)
  {
    hide EvalSeq, W.ApplyBinop, W.Bitwise;
    var s := [W.OfBool(y)] + ([W.OfBool(x)] + stack);
    PlainStep(m, n, W.IBinop(W.S32, op), rest, s, locals, rt);
    assert s[2..] == stack;
    assert Pop2(W.S32, s) == Some((W.OfBool(x).i, W.OfBool(y).i, stack));
    TruthOfBits(op, W.OfBool(x).i, W.OfBool(y).i);
  }

  /** What running code that computes the truth of a proposition and pushes it, then rest, amounts to. */
  function ThenTruth(m: W.Linked, n: nat, r: W.Result<bool>, rest: seq<W.Instr>, stack: seq<W.Value>,
      locals: seq<W.Value>, rt: nat): Outcome {
    match r
    case Trapped(trap) => Stop(TrapRun(trap))
    case Ok(b) => EvalSeq(m, n, rest, [W.OfBool(b)] + stack, locals, rt)
  }

  lemma {:induction false} SimpleKeepsTypes(tenv: TypeEnv, p: Prop)
    requires Simple(p) && PropGenerate(tenv, p).Ok?
    ensures PropGenerate(tenv, p).value.0 == tenv
  {
    if p.Not? { SimpleKeepsTypes(tenv, p.p); }
  }

  /** Compiler correctness for comparisons and negations. */
  lemma {:induction false} PropCorrect(m: W.Linked, n: nat, tenv: TypeEnv, env: Env, p: Prop, rest: seq<W.Instr>,
                                       stack: seq<W.Value>, locals: seq<W.Value>, rt: nat)
    requires Laid(tenv, env, locals) && env.globals == m.own.globals && Simple(p) && PropGenerate(tenv, p).Ok?
    requires n >= |PropGenerate(tenv, p).value.1|
    ensures EvalSeq(m, n, PropGenerate(tenv, p).value.1 + rest, stack, locals, rt)
         == ThenTruth(m, n - |PropGenerate(tenv, p).value.1|, PropValue(tenv, env, p), rest, stack, locals, rt)
    decreases p, 1
  {
    hide EvalSeq, TermGenerate, TermValue;
    match p
    case Const(b) => PlainStep(m, n, if b then PROP_TRUE else PROP_FALSE, rest, stack, locals, rt);
    case BinPred(pred, t1, t2) => BinPredCorrect(m, n, tenv, env, pred, t1, t2, rest, stack, locals, rt);
    case Not(p1) => NotCorrect(m, n, tenv, env, p1, rest, stack, locals, rt);
  }

  lemma BinPredCorrect(m: W.Linked, n: nat, tenv: TypeEnv, env: Env, pred: Binpred, t1: Term, t2: Term,
      rest: seq<W.Instr>, stack: seq<W.Value>, locals: seq<W.Value>, rt: nat)
    requires Laid(tenv, env, locals) && env.globals == m.own.globals && PropGenerate(tenv, BinPred(pred, t1, t2)).Ok?
    requires n >= |PropGenerate(tenv, BinPred(pred, t1, t2)).value.1|
    ensures EvalSeq(m, n, PropGenerate(tenv, BinPred(pred, t1, t2)).value.1 + rest, stack, locals, rt)
         == ThenTruth(m, n - |PropGenerate(tenv, BinPred(pred, t1, t2)).value.1|,
           PropValue(tenv, env, BinPred(pred, t1, t2)), rest, stack, locals, rt)
  {
    hide EvalSeq, ExecPlain, Holds, W.Wrap, W.ApplyRelop, W.ApplyBinop;
    var (e1, ty) := TermGenerate(tenv, t1).value;
    var e2 := TermGenerate(tenv, t2).value.0;
    var nn := SizeOf(ty);
    var last := [W.IRelop(nn, RelOf(pred))] + rest;
    assert PropGenerate(tenv, BinPred(pred, t1, t2)).value.1 + rest == e1 + (e2 + last);
    TermCorrect(m, n, tenv, env, t1, e2 + last, stack, locals, rt);
    var r1, r2 := TermValue(tenv, env, t1), TermValue(tenv, env, t2);
    if r1.Ok? {
      TermCorrect(m, n - |e1|, tenv, env, t2, last, [r1.value] + stack, locals, rt);
      if r2.Ok? {
        RelStep(m, n - |e1| - |e2|, nn, pred, r1.value, r2.value, rest, stack, locals, rt);
      }
    }
  }

  lemma {:induction false} NotCorrect(m: W.Linked, n: nat, tenv: TypeEnv, env: Env, p1: Prop, rest: seq<W.Instr>,
                                      stack: seq<W.Value>, locals: seq<W.Value>, rt: nat)
    requires Laid(tenv, env, locals) && env.globals == m.own.globals && Simple(p1) && PropGenerate(tenv, p1).Ok?
    requires n >= |PropGenerate(tenv, Not(p1)).value.1|
    ensures EvalSeq(m, n, PropGenerate(tenv, Not(p1)).value.1 + rest, stack, locals, rt)
         == ThenTruth(m, n - |PropGenerate(tenv, Not(p1)).value.1|, PropValue(tenv, env, Not(p1)), rest, stack, locals,
           rt)
    decreases Not(p1), 0
  {
    hide EvalSeq;
    var e1 := PropGenerate(tenv, p1).value.1;
    var xor := [W.IBinop(W.S32, W.Xor)] + rest;
    assert PropGenerate(tenv, Not(p1)).value.1 + rest == [PROP_TRUE] + (e1 + xor);
    ConstStep(m, n, W.TI32, 1, e1 + xor, stack, locals, rt);
    PropCorrect(m, n - 1, tenv, env, p1, xor, [W.OfBool(true)] + stack, locals, rt);
    var r1 := PropValue(tenv, env, p1);
    if r1.Ok? {
      TruthStep(m, n - 1 - |e1|, W.Xor, true, r1.value, rest, stack, locals, rt);
    }
  }
}
