/**
 * The compiler from Weasel specifications to instructions, and what terms and propositions mean.
 * Terms here are the integer ones; a type environment places their variables in the locals of
 * the checking function: parameters, one temporary, results, binders.
 */
module Weasel {
  import opened Prelude
  import opened Words
  import W = Wasm
  import opened Typing

  datatype Binop = Plus | Minus | Mult | Div
  datatype Binpred = Ge | Gt | Le | Lt | Eq | Neq
  datatype Connective = And | Or | Imply | Equiv
  datatype Quantifier = Forall | Exists

  datatype Term =
    | Int32(n: int32)
    | Int64(m: int64)
    | ParamVar(idx: int)
    | GlobalVar(idx: int)
    | BinderVar(idx: int)
    | Neg(t: Term)
    | BinOp(op: Binop, t1: Term, t2: Term)
    | ResultVar(res: Option<int>)

  datatype Prop =
    | Const(b: bool)
    | BinPred(pred: Binpred, t1: Term, t2: Term)
    | Not(p: Prop)
    | BinConnect(c: Connective, p1: Prop, p2: Prop)
    | Binder(q: Quantifier, bt: W.ValType, p: Prop)

  datatype Error = InvalidIndice | SpecTypeError | UnboundedQuantification
  datatype Gen<+T> = Ok(value: T) | Err(error: Error) {
    predicate IsFailure() { Err? }
    function PropagateFailure<U>(): Gen<U> requires Err? { Err(error) }
    function Extract(): T requires Ok? { value }
  }

  // ---------------------------------------------------------------- type environments

  /** binderBase is where binder 0 would be; entering a binder moves it up by one. */
  datatype TypeEnv = TypeEnv(
    params: seq<W.ValType>, results: seq<W.ValType>, binders: seq<W.ValType>, globals: seq<W.ValType>, binderBase: nat)
  {
    function Temp(): nat { |params| }
    function Result(i: nat): nat { |params| + i + 1 }
    function BinderAt(i: nat): nat { binderBase + i }
    function Enter(t: W.ValType): TypeEnv { this.(binders := [t] + binders, binderBase := binderBase + 1) }
  }

  function BuildTypeEnv(m: W.Module, ty: W.FuncType): TypeEnv {
    TypeEnv(ty.params, ty.results, [], TypesOf(m.globals), |ty.params| + |ty.results|)
  }

  /** The local of a variable of one binder is none of the parameters, the temporary or the results. */
  lemma BinderLocalIsFree(m: W.Module, ty: W.FuncType, bt: W.ValType, k: nat)
    ensures var tenv := BuildTypeEnv(m, ty).Enter(bt);
      && (k < |tenv.params| ==> k != tenv.Temp() && k != tenv.BinderAt(0)) && tenv.Temp() != tenv.BinderAt(0)
      && (k < |tenv.results| ==> tenv.Result(k) !in {tenv.Temp(), tenv.BinderAt(0)} && tenv.Result(k) >= |tenv.params|)
  {
  }

  // ---------------------------------------------------------------- code

  function SizeOf(t: W.ValType): W.Size { if t.TI32? then W.S32 else W.S64 }

  function ConstOf(t: W.ValType, b: bit): W.Instr { if t.TI32? then W.I32Const(b) else W.I64Const(b) }

  type bit = x: int | 0 <= x <= 1

  function OpOf(op: Binop): W.Binop {
    match op
    case Plus => W.Add
    case Minus => W.Sub
    case Mult => W.Mul
    case Div => W.Div(W.Signed)
  }

  function RelOf(p: Binpred): W.Relop {
    match p
    case Ge => W.Ge(W.Signed)
    case Gt => W.Gt(W.Signed)
    case Le => W.Le(W.Signed)
    case Lt => W.Lt(W.Signed)
    case Eq => W.Eq
    case Neq => W.Ne
  }

  type Code = seq<W.Instr>

  function TermGenerate(tenv: TypeEnv, t: Term): Gen<(Code, W.ValType)> {
    match t
    case Int32(n) => Ok(([W.I32Const(n)], W.TI32))
    case Int64(n) => Ok(([W.I64Const(n)], W.TI64))
    case ParamVar(i) =>
      if i < 0 || i >= |tenv.params| then Err(InvalidIndice) else Ok(([W.LocalGet(i)], tenv.params[i]))
    case GlobalVar(i) =>
      if i < 0 || i >= |tenv.globals| then Err(InvalidIndice) else Ok(([W.GlobalGet(i)], tenv.globals[i]))
    case BinderVar(i) =>
      if i < 0 || i >= |tenv.binders| then Err(InvalidIndice) else Ok(([W.LocalGet(tenv.BinderAt(i))], tenv.binders[i]))
    case Neg(t1) =>
      var (e1, ty1) :- TermGenerate(tenv, t1);
      Ok(([ConstOf(ty1, 0)] + e1 + [W.IBinop(SizeOf(ty1), W.Sub)], ty1))
    case BinOp(op, t1, t2) =>
      var (e1, ty1) :- TermGenerate(tenv, t1);
      var (e2, ty2) :- TermGenerate(tenv, t2);
      if ty1 == ty2 then Ok((e1 + e2 + [W.IBinop(SizeOf(ty1), OpOf(op))], ty1)) else Err(SpecTypeError)
    case ResultVar(Some(i)) =>
      if i < 0 || i >= |tenv.results| then Err(InvalidIndice) else Ok(([W.LocalGet(tenv.Result(i))], tenv.results[i]))
    case ResultVar(None) =>
      if |tenv.results| == 0 then Err(InvalidIndice) else Ok(([W.LocalGet(tenv.Result(0))], tenv.results[0]))
  }

  const PROP_TRUE: W.Instr := W.I32Const(1)
  const PROP_FALSE: W.Instr := W.I32Const(0)
  const VOID_TO_I32 := W.FuncType([], [W.TI32])
  const I32_TO_I32 := W.FuncType([W.TI32], [W.TI32])

  function ConnectGenerate(c: Connective, e1: Code, e2: Code): Code {
    var bt := Some(I32_TO_I32);
    match c
    case And => e1 + [W.IfElse(bt, e2, [PROP_FALSE])]
    case Or => e1 + [W.IfElse(bt, [PROP_TRUE], e2)]
    case Imply => e1 + [W.IfElse(bt, e2, [PROP_TRUE])]
    case Equiv => e1 + [W.IfElse(bt, e2, [PROP_TRUE] + e2 + [W.IBinop(W.S32, W.Xor)])]
  }

  /** The bounds and body of a quantifier over lower <= x && x <= upper ==> body. */
  function BoundedQuantification(p: Prop): (r: Gen<(Term, Term, Prop)>)
    ensures r.Ok? ==> r.value.2 < p
  {
    match p
    case Binder(_, _, BinConnect(Imply,
      BinConnect(And, BinPred(Ge, BinderVar(0), lower), BinPred(Le, BinderVar(0), upper)), body)) =>
      Ok((lower, upper, body))
    case _ => Err(UnboundedQuantification)
  }

  /** Set the binder to the lower bound, with the neutral truth value as accumulator. */
  function InitCode(binder: nat, lower: Code, neutral: W.Instr): Code {
    lower + [W.LocalSet(binder), neutral]
  }

  /** The code that joins the body's truth to the accumulator and leaves both labels unless that is true. */
  function AccumulateCode(op: W.Binop, temp: nat): Code {
    [W.IBinop(W.S32, op), W.LocalTee(temp), W.LocalGet(temp), W.I32Const(1), W.IBinop(W.S32, W.Xor), W.BrIf(1)]
  }

  function LoopBody(tenv: TypeEnv, bt: W.ValType, combine: W.Binop, body: Code, upper: Code): Code {
    var (nn, binder) := (SizeOf(bt), tenv.BinderAt(0));
    body
    + AccumulateCode(combine, tenv.Temp())
    + [W.LocalGet(binder), ConstOf(bt, 1), W.IBinop(nn, W.Add), W.LocalSet(binder)]
    + [W.LocalGet(binder)] + upper + [W.IRelop(nn, W.Le(W.Signed)), W.BrIf(0)]
  }

  function PropGenerate(tenv: TypeEnv, p: Prop): Gen<(TypeEnv, Code)>
    decreases p
  {
    match p
    case Const(b) => Ok((tenv, [if b then PROP_TRUE else PROP_FALSE]))
    case BinPred(pred, t1, t2) =>
      var (e1, ty1) :- TermGenerate(tenv, t1);
      var (e2, ty2) :- TermGenerate(tenv, t2);
      if ty1 == ty2 then Ok((tenv, e1 + e2 + [W.IRelop(SizeOf(ty1), RelOf(pred))])) else Err(SpecTypeError)
    case Not(p1) =>
      var (tenv1, e1) :- PropGenerate(tenv, p1);
      Ok((tenv1, [PROP_TRUE] + e1 + [W.IBinop(W.S32, W.Xor)]))
    case BinConnect(c, p1, p2) =>
      var (tenv1, e1) :- PropGenerate(tenv, p1);
      var (tenv2, e2) :- PropGenerate(tenv1, p2);
      Ok((tenv2, ConnectGenerate(c, e1, e2)))
    case Binder(q, bt, inner) =>
      var (lower, upper, body) :- BoundedQuantification(p);
      var (lowerCode, lowerTy) :- TermGenerate(tenv, lower);
      var (upperCode, upperTy) :- TermGenerate(tenv, upper);
      if lowerTy != upperTy || lowerTy != bt then Err(UnboundedQuantification)
      else
        var (tenv', bodyCode) :- PropGenerate(tenv.Enter(bt), body);
        var neutral := if q.Forall? then PROP_TRUE else PROP_FALSE;
        var combine := if q.Forall? then W.And else W.Or;
        var loop := W.Loop(Some(I32_TO_I32), LoopBody(tenv', bt, combine, bodyCode, upperCode));
        Ok((tenv', [W.Block(Some(VOID_TO_I32), InitCode(tenv'.BinderAt(0), lowerCode, neutral) + [loop])]))
  }

  // ---------------------------------------------------------------- meaning

  /** The values of the variables. */
  datatype Env = Env(params: seq<W.Value>, results: seq<W.Value>, binders: seq<W.Value>, globals: seq<W.Value>) {
    predicate Types(tenv: TypeEnv) {
      && TypesOf(params) == tenv.params && TypesOf(results) == tenv.results
      && TypesOf(binders) == tenv.binders && TypesOf(globals) == tenv.globals
    }
  }

  /**
   * Machine arithmetic: results wrap, division truncates and traps where the quotient does not exist or
   * does not fit.
   */
  function Arith(nn: W.Size, op: Binop, x: int, y: int): (r: W.Result<int>)
    ensures r.Ok? ==> W.InRange(nn, r.value)
  {
    match op
    case Plus => W.Ok(W.Wrap(nn, x + y))
    case Minus => W.Ok(W.Wrap(nn, x - y))
    case Mult => W.Ok(W.Wrap(nn, x * y))
    case Div =>
      if y == 0 then W.Trapped(W.IntegerDivideByZero)
      else if W.InRange(nn, W.TruncDiv(x, y)) then W.Ok(W.TruncDiv(x, y))
      else W.Trapped(W.IntegerOverflow)
  }

  /** The value of a term that has a type; operands are evaluated from the left. */
  function TermValue(tenv: TypeEnv, env: Env, t: Term): (r: W.Result<W.Value>)
    requires env.Types(tenv) && TermGenerate(tenv, t).Ok?
    ensures r.Ok? ==> r.value.Type() == TermGenerate(tenv, t).value.1
  {
    match t
    case Int32(n) => W.Ok(W.I32(n))
    case Int64(n) => W.Ok(W.I64(n))
    case ParamVar(i) => var _ := TypesOf(env.params)[i]; W.Ok(env.params[i])
    case GlobalVar(i) => var _ := TypesOf(env.globals)[i]; W.Ok(env.globals[i])
    case BinderVar(i) => var _ := TypesOf(env.binders)[i]; W.Ok(env.binders[i])
    case ResultVar(i) => var _ := TypesOf(env.results)[i.GetOr(0)]; W.Ok(env.results[i.GetOr(0)])
    case Neg(t1) =>
      (match TermValue(tenv, env, t1)
       case Trapped(trap) => W.Trapped(trap)
       case Ok(v) => var nn := SizeOf(v.Type()); W.Ok(W.Make(nn, W.Wrap(nn, -v.Int()))))
    case BinOp(op, t1, t2) =>
      match TermValue(tenv, env, t1)
      case Trapped(trap) => W.Trapped(trap)
      case Ok(v1) =>
        match TermValue(tenv, env, t2)
        case Trapped(trap) => W.Trapped(trap)
        case Ok(v2) =>
          var nn := SizeOf(v1.Type());
          match Arith(nn, op, v1.Int(), v2.Int())
          case Trapped(trap) => W.Trapped(trap)
          case Ok(r) => W.Ok(W.Make(nn, r))
  }

  predicate Holds(p: Binpred, x: int, y: int) {
    match p
    case Ge => x >= y
    case Gt => x > y
    case Le => x <= y
    case Lt => x < y
    case Eq => x == y
    case Neq => x != y
  }

  /** Propositions built from comparisons and negation only. */
  predicate Simple(p: Prop) {
    match p
    case Const(_) => true
    case BinPred(_, _, _) => true
    case Not(p1) => Simple(p1)
    case _ => false
  }

  function PropValue(tenv: TypeEnv, env: Env, p: Prop): W.Result<bool>
    requires env.Types(tenv) && Simple(p) && PropGenerate(tenv, p).Ok?
  {
    match p
    case Const(b) => W.Ok(b)
    case Not(p1) =>
      (match PropValue(tenv, env, p1)
       case Trapped(trap) => W.Trapped(trap)
       case Ok(b) => W.Ok(!b))
    case BinPred(pred, t1, t2) =>
      match TermValue(tenv, env, t1)
      case Trapped(trap) => W.Trapped(trap)
      case Ok(v1) =>
        match TermValue(tenv, env, t2)
        case Trapped(trap) => W.Trapped(trap)
        case Ok(v2) => W.Ok(Holds(pred, v1.Int(), v2.Int()))
  }
}
