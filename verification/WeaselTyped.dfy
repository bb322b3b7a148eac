/**
 * The code generated for terms, comparisons, negations and bounded quantifiers is valid: typed by section 3.3 of the
 * WebAssembly Core Specification in the function that checks them.
 */
module WeaselTyped {
  import opened Prelude
  import W = Wasm
  import opened Typing
  import opened Weasel
  import opened WeaselBinders
  import opened WeaselQuantifier
  import WeaselConnectives

  /** The locals and globals of the checking function are of the types the environment gives its variables. */
  ghost predicate Places(tenv: TypeEnv, c: Context) {
    && TypesOf(c.m.globals) == tenv.globals
    && |tenv.params| + |tenv.results| < |c.locals|
    && (forall i :: 0 <= i < |tenv.params| ==> c.locals[i] == tenv.params[i])
    && c.locals[tenv.Temp()] == W.TI32
    && (forall i :: 0 <= i < |tenv.results| ==> c.locals[tenv.Result(i)] == tenv.results[i])
    && (forall i :: 0 <= i < |tenv.binders| ==>
      tenv.BinderAt(i) < |c.locals| && c.locals[tenv.BinderAt(i)] == tenv.binders[i])
  }

  lemma OneTyped(c: Context, i: W.Instr, t1: StackType, t2: StackType)
    requires InstrTyped(c, i, t1, t2)
    ensures SeqTyped(c, [i], t1, t2)
  {
    assert [i][1..] == [] && SeqTyped(c, [], t2, t2);
  }

  lemma {:induction false} AppendTyped(c: Context, es: Code, fs: Code, t1: StackType, t2: StackType, t3: StackType)
    requires SeqTyped(c, es, t1, t2) && SeqTyped(c, fs, t2, t3)
    ensures SeqTyped(c, es + fs, t1, t3)
  {
    if es == [] {
      assert es + fs == fs;
    } else {
      var mid: StackType :| InstrTyped(c, es[0], t1, mid) && SeqTyped(c, es[1..], mid, t2);
      AppendTyped(c, es[1..], fs, mid, t2, t3);
      assert (es + fs)[1..] == es[1..] + fs;
    }
  }

  lemma Snoc(c: Context, es: Code, i: W.Instr, t1: StackType, t2: StackType, t3: StackType)
    requires SeqTyped(c, es, t1, t2) && InstrTyped(c, i, t2, t3)
    ensures SeqTyped(c, es + [i], t1, t3)
  {
    OneTyped(c, i, t2, t3);
    AppendTyped(c, es, [i], t1, t2, t3);
  }

  lemma ConstTyped(c: Context, ty: W.ValType, b: bit, t: StackType)
    ensures InstrTyped(c, ConstOf(ty, b), t, [ty] + t)
  {
    assert t[0..] == t;
  }

  lemma LocalTyped(c: Context, k: nat, t: StackType)
    requires k < |c.locals|
    ensures InstrTyped(c, W.LocalGet(k), t, [c.locals[k]] + t)
    ensures InstrTyped(c, W.LocalSet(k), [c.locals[k]] + t, t)
    ensures InstrTyped(c, W.LocalTee(k), [c.locals[k]] + t, [c.locals[k]] + t)
  {
    assert t[0..] == t && ([c.locals[k]] + t)[1..] == t && [] + t == t;
  }

  lemma BinaryTyped(c: Context, ty: W.ValType, op: W.Binop, rel: W.Relop, t: StackType)
    ensures InstrTyped(c, W.IBinop(SizeOf(ty), op), [ty] + ([ty] + t), [ty] + t)
    ensures InstrTyped(c, W.IRelop(SizeOf(ty), rel), [ty] + ([ty] + t), [W.TI32] + t)
  {
    assert [ty] + ([ty] + t) == [ty, ty] + t && ([ty, ty] + t)[2..] == t;
  }

  lemma LeafTyped(c: Context, tenv: TypeEnv, term: Term, t: StackType)
    requires Places(tenv, c) && TermGenerate(tenv, term).Ok? && !term.Neg? && !term.BinOp?
    ensures var (code, ty) := TermGenerate(tenv, term).value; SeqTyped(c, code, t, [ty] + t)
  {
    var (code, ty) := TermGenerate(tenv, term).value;
    assert t[0..] == t;
    if term.GlobalVar? { assert TypesOf(c.m.globals)[term.idx] == ty; }
    OneTyped(c, code[0], t, [ty] + t);
  }

  /** The code of a term pushes one value, of the type the compiler says. */
  lemma {:induction false} TermTyped(c: Context, tenv: TypeEnv, term: Term, t: StackType)
    requires Places(tenv, c) && TermGenerate(tenv, term).Ok?
    ensures var (code, ty) := TermGenerate(tenv, term).value; SeqTyped(c, code, t, [ty] + t)
    decreases term, 1
  {
    match term
    case Neg(t1) =>
      var (e1, ty) := TermGenerate(tenv, t1).value;
      ConstTyped(c, ty, 0, t);
      OneTyped(c, ConstOf(ty, 0), t, [ty] + t);
      TermTyped(c, tenv, t1, [ty] + t);
      BinaryTyped(c, ty, W.Sub, W.Eq, t);
      hide InstrTyped, SeqTyped;
      AppendTyped(c, [ConstOf(ty, 0)], e1, t, [ty] + t, [ty] + ([ty] + t));
      Snoc(c, [ConstOf(ty, 0)] + e1, W.IBinop(SizeOf(ty), W.Sub), t, [ty] + ([ty] + t), [ty] + t);
    case BinOp(op, t1, t2) =>
      TwoTyped(c, tenv, term, t1, t2, t);
      var (e1, ty) := TermGenerate(tenv, t1).value;
      var e2 := TermGenerate(tenv, t2).value.0;
      BinaryTyped(c, ty, OpOf(op), W.Eq, t);
      Snoc(c, e1 + e2, W.IBinop(SizeOf(ty), OpOf(op)), t, [ty] + ([ty] + t), [ty] + t);
    case _ => LeafTyped(c, tenv, term, t);
  }

  /** Two terms of one type after another. */
  lemma {:induction false} TwoTyped(c: Context, tenv: TypeEnv, whole: Term, t1: Term, t2: Term, t: StackType)
    requires t1 < whole && t2 < whole && Places(tenv, c) && TermGenerate(tenv, t1).Ok? && TermGenerate(tenv, t2).Ok?
    requires TermGenerate(tenv, t1).value.1 == TermGenerate(tenv, t2).value.1
    ensures var (e1, ty) := TermGenerate(tenv, t1).value;
      SeqTyped(c, e1 + TermGenerate(tenv, t2).value.0, t, [ty] + ([ty] + t))
    decreases whole, 0
  {
    var (e1, ty) := TermGenerate(tenv, t1).value;
    TermTyped(c, tenv, t1, t);
    TermTyped(c, tenv, t2, [ty] + t);
    AppendTyped(c, e1, TermGenerate(tenv, t2).value.0, t, [ty] + t, [ty] + ([ty] + t));
  }

  /** The code of a constant, comparison or negation pushes a truth value. */
  lemma {:induction false} PropTyped(c: Context, tenv: TypeEnv, p: Prop, t: StackType)
    requires Places(tenv, c) && Simple(p) && PropGenerate(tenv, p).Ok?
    ensures SeqTyped(c, PropGenerate(tenv, p).value.1, t, [W.TI32] + t)
  {
    match p
    case Const(b) =>
      ConstTyped(c, W.TI32, if b then 1 else 0, t);
      OneTyped(c, ConstOf(W.TI32, if b then 1 else 0), t, [W.TI32] + t);
    case BinPred(pred, t1, t2) =>
      TwoTyped(c, tenv, BinOp(Plus, t1, t2), t1, t2, t);
      var (e1, ty) := TermGenerate(tenv, t1).value;
      var e2 := TermGenerate(tenv, t2).value.0;
      BinaryTyped(c, ty, W.Add, RelOf(pred), t);
      Snoc(c, e1 + e2, W.IRelop(SizeOf(ty), RelOf(pred)), t, [ty] + ([ty] + t), [W.TI32] + t);
    case Not(p1) =>
      var e1 := PropGenerate(tenv, p1).value.1;
      ConstTyped(c, W.TI32, 1, t);
      OneTyped(c, PROP_TRUE, t, [W.TI32] + t);
      PropTyped(c, tenv, p1, [W.TI32] + t);
      BinaryTyped(c, W.TI32, W.Xor, W.Eq, t);
      hide InstrTyped, SeqTyped;
      AppendTyped(c, [PROP_TRUE], e1, t, [W.TI32] + t, [W.TI32] + ([W.TI32] + t));
      Snoc(c, [PROP_TRUE] + e1, W.IBinop(W.S32, W.Xor), t, [W.TI32] + ([W.TI32] + t), [W.TI32] + t);
  }

  // ---------------------------------------------------------------- connectives

  lemma {:induction false} SplitTyped(c: Context, es: Code, fs: Code, t1: StackType, t3: StackType)
      returns (mid: StackType)
    requires SeqTyped(c, es + fs, t1, t3)
    ensures SeqTyped(c, es, t1, mid) && SeqTyped(c, fs, mid, t3)
  {
    if es == [] {
      assert es + fs == fs;
      mid := t1;
    } else {
      assert (es + fs)[1..] == es[1..] + fs;
      var next: StackType :| InstrTyped(c, es[0], t1, next) && SeqTyped(c, es[1..] + fs, next, t3);
      mid := SplitTyped(c, es[1..], fs, next, t3);
    }
  }

  lemma OfOne(c: Context, i: W.Instr, t1: StackType, t2: StackType)
    requires SeqTyped(c, [i], t1, t2)
    ensures InstrTyped(c, i, t1, t2)
  {
    var mid: StackType :| InstrTyped(c, i, t1, mid) && SeqTyped(c, [i][1..], mid, t2);
  }

  lemma UnsnocTyped(c: Context, es: Code, i: W.Instr, t1: StackType, t3: StackType) returns (mid: StackType)
    requires SeqTyped(c, es + [i], t1, t3)
    ensures SeqTyped(c, es, t1, mid) && InstrTyped(c, i, mid, t3)
  {
    mid := SplitTyped(c, es, [i], t1, t3);
    OfOne(c, i, mid, t3);
  }

  /** Where the code of a term is typed it leaves one value more. */
  lemma {:induction false} TermGrows(c: Context, tenv: TypeEnv, term: Term, t1: StackType, t2: StackType)
    requires TermGenerate(tenv, term).Ok? && SeqTyped(c, TermGenerate(tenv, term).value.0, t1, t2)
    ensures |t2| == |t1| + 1
    decreases term, 1
  {
    var code := TermGenerate(tenv, term).value.0;
    match term
    case Neg(u) =>
      var (e, ty) := TermGenerate(tenv, u).value;
      var mid := UnsnocTyped(c, [ConstOf(ty, 0)] + e, W.IBinop(SizeOf(ty), W.Sub), t1, t2);
      var low := SplitTyped(c, [ConstOf(ty, 0)], e, t1, mid);
      OfOne(c, ConstOf(ty, 0), t1, low);
      TermGrows(c, tenv, u, low, mid);
    case BinOp(op, u, v) =>
      var (e, ty) := TermGenerate(tenv, u).value;
      var f := TermGenerate(tenv, v).value.0;
      var mid := UnsnocTyped(c, e + f, W.IBinop(SizeOf(ty), OpOf(op)), t1, t2);
      TwoGrow(c, tenv, term, u, v, t1, mid);
    case _ => OfOne(c, code[0], t1, t2);
  }

  lemma {:induction false} TwoGrow(c: Context, tenv: TypeEnv, whole: Term, u: Term, v: Term, t1: StackType,
                                   t2: StackType)
    requires u < whole && v < whole && TermGenerate(tenv, u).Ok? && TermGenerate(tenv, v).Ok?
    requires SeqTyped(c, TermGenerate(tenv, u).value.0 + TermGenerate(tenv, v).value.0, t1, t2)
    ensures |t2| == |t1| + 2
    decreases whole, 0
  {
    var mid := SplitTyped(c, TermGenerate(tenv, u).value.0, TermGenerate(tenv, v).value.0, t1, t2);
    TermGrows(c, tenv, u, t1, mid);
    TermGrows(c, tenv, v, mid, t2);
  }

  /** The context inside a block that leaves a truth value, or a loop that takes one. */
  function InBlock(c: Context): Context { c.(labels := [[W.TI32]] + c.labels) }

  /** The branches of a connective's conditional would have to leave as many values as they find. */
  lemma BranchesTyped(c: Context, thn: Code, els: Code, t1: StackType, t2: StackType)
    requires InstrTyped(c, W.IfElse(Some(I32_TO_I32), thn, els), t1, t2)
    ensures SeqTyped(InBlock(c), thn, [W.TI32], [W.TI32]) && SeqTyped(InBlock(c), els, [W.TI32], [W.TI32])
  {
    assert Reverse([W.TI32]) == [W.TI32];
  }

  lemma ConstGrows(c: Context, b: bit)
    ensures !SeqTyped(c, [W.I32Const(b)], [W.TI32], [W.TI32])
  {
    if SeqTyped(c, [W.I32Const(b)], [W.TI32], [W.TI32]) {
      OfOne(c, W.I32Const(b), [W.TI32], [W.TI32]);
      assert false;
    }
  }

  /** Where the code of a proposition without quantifiers is typed, it has no connective and leaves one value more. */
  lemma {:induction false} OnlySimple(c: Context, tenv: TypeEnv, p: Prop, t1: StackType, t2: StackType)
    requires WeaselConnectives.Compiles(tenv, p) && SeqTyped(c, WeaselConnectives.CodeOf(tenv, p), t1, t2)
    ensures Simple(p) && |t2| == |t1| + 1
    decreases p, 1
  {
    var code := WeaselConnectives.CodeOf(tenv, p);
    match p
    case Const(_) => OfOne(c, code[0], t1, t2);
    case BinPred(pred, u, v) =>
      var (e, ty) := TermGenerate(tenv, u).value;
      var mid := UnsnocTyped(c, e + TermGenerate(tenv, v).value.0, W.IRelop(SizeOf(ty), RelOf(pred)), t1, t2);
      TwoGrow(c, tenv, BinOp(Plus, u, v), u, v, t1, mid);
    case Not(p1) =>
      var e := WeaselConnectives.CodeOf(tenv, p1);
      var mid := UnsnocTyped(c, [PROP_TRUE] + e, W.IBinop(W.S32, W.Xor), t1, t2);
      var low := SplitTyped(c, [PROP_TRUE], e, t1, mid);
      OfOne(c, PROP_TRUE, t1, low);
      OnlySimple(c, tenv, p1, low, mid);
    case BinConnect(_, _, _) =>
      NoConnective(c, tenv, p, t1, t2);
      assert false;
  }

  lemma {:induction false} NoConnective(c: Context, tenv: TypeEnv, p: Prop, t1: StackType, t2: StackType)
    requires WeaselConnectives.Compiles(tenv, p) && p.BinConnect?
    ensures !SeqTyped(c, WeaselConnectives.CodeOf(tenv, p), t1, t2)
    decreases p, 0
  {
    if SeqTyped(c, WeaselConnectives.CodeOf(tenv, p), t1, t2) {
      WeaselConnectives.PlainKeepsTypes(tenv, p);
      var (e1, e2) := (WeaselConnectives.CodeOf(tenv, p.p1), WeaselConnectives.CodeOf(tenv, p.p2));
      var (thn, els) := Branches(p.c, e2);
      var mid := UnsnocTyped(c, e1, W.IfElse(Some(I32_TO_I32), thn, els), t1, t2);
      BranchesTyped(c, thn, els, mid, t2);
      ConstGrows(InBlock(c), 0);
      ConstGrows(InBlock(c), 1);
      if p.c.Equiv? { OnlySimple(InBlock(c), tenv, p.p2, [W.TI32], [W.TI32]); }
      assert false;
    }
  }

  function Branches(k: Connective, e2: Code): (r: (Code, Code))
    ensures forall e1: Code :: ConnectGenerate(k, e1, e2) == e1 + [W.IfElse(Some(I32_TO_I32), r.0, r.1)]
  {
    match k
    case And => (e2, [PROP_FALSE])
    case Or => ([PROP_TRUE], e2)
    case Imply => (e2, [PROP_TRUE])
    case Equiv => (e2, [PROP_TRUE] + e2 + [W.IBinop(W.S32, W.Xor)])
  }

  /**
   * The code of a proposition without quantifiers is valid exactly when no connective is in it: with one it is
   * typed from no operands to no others.
   */
  lemma ValidExactly(c: Context, tenv: TypeEnv, p: Prop, t: StackType)
    requires Places(tenv, c) && WeaselConnectives.Compiles(tenv, p)
    ensures SeqTyped(c, WeaselConnectives.CodeOf(tenv, p), t, [W.TI32] + t) <==> Simple(p)
    ensures !Simple(p) ==> forall t1, t2 :: !SeqTyped(c, WeaselConnectives.CodeOf(tenv, p), t1, t2)
  {
    if Simple(p) {
      PropTyped(c, tenv, p, t);
    } else {
      forall t1, t2 ensures !SeqTyped(c, WeaselConnectives.CodeOf(tenv, p), t1, t2) {
        if SeqTyped(c, WeaselConnectives.CodeOf(tenv, p), t1, t2) { OnlySimple(c, tenv, p, t1, t2); }
      }
    }
  }

  // ---------------------------------------------------------------- quantifiers

  lemma BranchTyped(c: Context, k: nat)
    requires k < |c.labels| && c.labels[k] == [W.TI32]
    ensures InstrTyped(c, W.BrIf(k), [W.TI32, W.TI32], [W.TI32])
  {
    assert Reverse([W.TI32]) == [W.TI32];
    assert [W.TI32, W.TI32][1..] == [W.TI32];
  }

  /** Joining the body's truth to the accumulator and leaving unless that is true. */
  lemma AccumulateTyped(c: Context, op: W.Binop, temp: nat)
    requires temp < |c.locals| && c.locals[temp] == W.TI32 && |c.labels| > 1 && c.labels[1] == [W.TI32]
    ensures SeqTyped(c, AccumulateCode(op, temp), [W.TI32, W.TI32], [W.TI32])
  {
    AccumulateSteps(c, op, temp, [W.TI32], [W.TI32, W.TI32], [W.TI32, W.TI32, W.TI32]);
  }

  lemma AccumulateSteps(c: Context, op: W.Binop, temp: nat, one: StackType, two: StackType, three: StackType)
    requires temp < |c.locals| && c.locals[temp] == W.TI32 && |c.labels| > 1 && c.labels[1] == [W.TI32]
    requires one == [W.TI32] && two == [W.TI32, W.TI32] && three == [W.TI32, W.TI32, W.TI32]
    ensures SeqTyped(c, AccumulateCode(op, temp), two, one)
  {
    hide InstrTyped, SeqTyped;
    Truths(c, op, [], one, two);
    Truths(c, W.Xor, one, two, three);
    TruthLocal(c, temp, [], one);
    TruthLocal(c, temp, one, two);
    ConstTyped(c, W.TI32, 1, two);
    BranchTyped(c, 1);
    assert [W.TI32] + two == three;
    SixTyped(c, W.IBinop(W.S32, op), W.LocalTee(temp), W.LocalGet(temp), W.I32Const(1), W.IBinop(W.S32, W.Xor),
      W.BrIf(1), one, two, three);
  }

  lemma SixTyped(c: Context, a: W.Instr, b: W.Instr, d: W.Instr, e: W.Instr, f: W.Instr, g: W.Instr,
                 one: StackType, two: StackType, three: StackType)
    requires InstrTyped(c, a, two, one) && InstrTyped(c, b, one, one) && InstrTyped(c, d, one, two)
    requires InstrTyped(c, e, two, three) && InstrTyped(c, f, three, two) && InstrTyped(c, g, two, one)
    ensures SeqTyped(c, [a, b, d, e, f, g], two, one)
  {
    hide InstrTyped, SeqTyped;
    ChainTyped(c, [a, b, d, e, f, g], [two, one, one, two, three, two, one]);
  }

  lemma Truths(c: Context, op: W.Binop, t: StackType, t1: StackType, t2: StackType)
    requires t1 == [W.TI32] + t && t2 == [W.TI32] + t1
    ensures InstrTyped(c, W.IBinop(W.S32, op), t2, t1)
  {
    BinaryTyped(c, W.TI32, op, W.Eq, t);
  }

  lemma TruthLocal(c: Context, k: nat, t: StackType, t1: StackType)
    requires k < |c.locals| && c.locals[k] == W.TI32 && t1 == [W.TI32] + t
    ensures InstrTyped(c, W.LocalGet(k), t, t1) && InstrTyped(c, W.LocalTee(k), t1, t1)
  {
    LocalTyped(c, k, t);
  }

  /** Instructions each typed from one type to the next. */
  lemma {:induction false} ChainTyped(c: Context, es: Code, ts: seq<StackType>)
    requires |ts| == |es| + 1 && forall k :: 0 <= k < |es| ==> InstrTyped(c, es[k], ts[k], ts[k + 1])
    ensures SeqTyped(c, es, ts[0], ts[|es|])
  {
    hide InstrTyped;
    if es != [] {
      ChainTyped(c, es[1..], ts[1..]);
      assert InstrTyped(c, es[0], ts[0], ts[1]) && SeqTyped(c, es[1..], ts[1], ts[|es|]);
    }
  }

  /** The next index. */
  lemma NextTyped(c: Context, bt: W.ValType, k: nat, t: StackType)
    requires k < |c.locals| && c.locals[k] == bt
    ensures SeqTyped(c, [W.LocalGet(k), ConstOf(bt, 1), W.IBinop(SizeOf(bt), W.Add), W.LocalSet(k)], t, t)
  {
    LocalTyped(c, k, t);
    ConstTyped(c, bt, 1, [bt] + t);
    BinaryTyped(c, bt, W.Add, W.Eq, t);
    hide InstrTyped, SeqTyped;
    ChainTyped(c, [W.LocalGet(k), ConstOf(bt, 1), W.IBinop(SizeOf(bt), W.Add), W.LocalSet(k)],
      [t, [bt] + t, [bt] + ([bt] + t), [bt] + t, t]);
  }

  /** Going round again up to the upper bound. */
  lemma AgainTyped(c: Context, bt: W.ValType, k: nat, upper: Code)
    requires k < |c.locals| && c.locals[k] == bt && |c.labels| > 0 && c.labels[0] == [W.TI32]
    requires SeqTyped(c, upper, [bt] + [W.TI32], [bt] + ([bt] + [W.TI32]))
    ensures SeqTyped(c, [W.LocalGet(k)] + upper + [W.IRelop(SizeOf(bt), W.Le(W.Signed)), W.BrIf(0)], [W.TI32], [W.TI32])
  {
    var t: StackType := [W.TI32];
    LocalTyped(c, k, t);
    CompareTyped(c, bt, t, [bt] + ([bt] + t));
    OneTyped(c, W.LocalGet(k), t, [bt] + t);
    hide InstrTyped, SeqTyped;
    AppendTyped(c, [W.LocalGet(k)], upper, t, [bt] + t, [bt] + ([bt] + t));
    AppendTyped(c, [W.LocalGet(k)] + upper, [W.IRelop(SizeOf(bt), W.Le(W.Signed)), W.BrIf(0)], t, [bt] + ([bt] + t), t);
  }

  lemma CompareTyped(c: Context, bt: W.ValType, t: StackType, t2: StackType)
    requires t == [W.TI32] && t2 == [bt] + ([bt] + t) && |c.labels| > 0 && c.labels[0] == [W.TI32]
    ensures SeqTyped(c, [W.IRelop(SizeOf(bt), W.Le(W.Signed)), W.BrIf(0)], t2, t)
  {
    BinaryTyped(c, bt, W.Add, W.Le(W.Signed), t);
    BranchTyped(c, 0);
    var two: StackType := [W.TI32] + t;
    assert two == [W.TI32, W.TI32];
    hide InstrTyped, SeqTyped;
    ChainTyped(c, [W.IRelop(SizeOf(bt), W.Le(W.Signed)), W.BrIf(0)], [t2, two, t]);
  }

  lemma LoopBodyTyped(c: Context, tenv: TypeEnv, bt: W.ValType, combine: W.Binop, body: Code, upper: Code)
    requires tenv.BinderAt(0) < |c.locals| && c.locals[tenv.BinderAt(0)] == bt
    requires tenv.Temp() < |c.locals| && c.locals[tenv.Temp()] == W.TI32
    requires |c.labels| > 1 && c.labels[0] == c.labels[1] == [W.TI32]
    requires SeqTyped(c, body, [W.TI32], [W.TI32] + [W.TI32])
    requires SeqTyped(c, upper, [bt] + [W.TI32], [bt] + ([bt] + [W.TI32]))
    ensures SeqTyped(c, LoopBody(tenv, bt, combine, body, upper), [W.TI32], [W.TI32])
  {
    var one: StackType := [W.TI32];
    var two: StackType := [W.TI32, W.TI32];
    var k := tenv.BinderAt(0);
    assert [W.TI32] + [W.TI32] == two;
    AccumulateTyped(c, combine, tenv.Temp());
    NextTyped(c, bt, k, one);
    AgainTyped(c, bt, k, upper);
    hide SeqTyped, AccumulateCode;
    FourTyped(c, body, AccumulateCode(combine, tenv.Temp()),
      [W.LocalGet(k), ConstOf(bt, 1), W.IBinop(SizeOf(bt), W.Add), W.LocalSet(k)],
      [W.LocalGet(k)] + upper + [W.IRelop(SizeOf(bt), W.Le(W.Signed)), W.BrIf(0)], one, two);
    Regroup(body + AccumulateCode(combine, tenv.Temp())
      + [W.LocalGet(k), ConstOf(bt, 1), W.IBinop(SizeOf(bt), W.Add), W.LocalSet(k)],
      [W.LocalGet(k)], upper, [W.IRelop(SizeOf(bt), W.Le(W.Signed)), W.BrIf(0)]);
  }

  lemma Regroup<T>(a: seq<T>, b: seq<T>, d: seq<T>, e: seq<T>)
    ensures a + (b + d + e) == a + b + d + e
  {
  }

  lemma FourTyped(c: Context, a: Code, b: Code, d: Code, e: Code, one: StackType, two: StackType)
    requires SeqTyped(c, a, one, two) && SeqTyped(c, b, two, one)
    requires SeqTyped(c, d, one, one) && SeqTyped(c, e, one, one)
    ensures SeqTyped(c, a + b + d + e, one, one)
  {
    hide SeqTyped;
    AppendTyped(c, a, b, one, two, one);
    AppendTyped(c, a + b, d, one, one, one);
    AppendTyped(c, a + b + d, e, one, one, one);
  }

  lemma BlockOfLoop(c: Context, k: nat, bt: W.ValType, lower: Code, b: bit, loop: Code, t: StackType)
    requires k < |c.locals| && c.locals[k] == bt
    requires SeqTyped(InBlock(c), lower, [], [bt] + [])
    requires SeqTyped(InBlock(InBlock(c)), loop, [W.TI32], [W.TI32])
    ensures var body := InitCode(k, lower, W.I32Const(b)) + [W.Loop(Some(I32_TO_I32), loop)];
      SeqTyped(c, [W.Block(Some(VOID_TO_I32), body)], t, [W.TI32] + t)
  {
    var one: StackType := [W.TI32];
    InnerTyped(InBlock(c), k, bt, lower, b, loop, [bt] + [], one);
    BlockAround(c, InitCode(k, lower, W.I32Const(b)) + [W.Loop(Some(I32_TO_I32), loop)], t, one);
  }

  lemma InnerTyped(d: Context, k: nat, bt: W.ValType, lower: Code, b: bit, loop: Code, low: StackType, one: StackType)
    requires k < |d.locals| && d.locals[k] == bt && low == [bt] + [] && one == [W.TI32]
    requires SeqTyped(d, lower, [], low) && SeqTyped(InBlock(d), loop, one, one)
    ensures SeqTyped(d, InitCode(k, lower, W.I32Const(b)) + [W.Loop(Some(I32_TO_I32), loop)], [], one)
  {
    hide InstrTyped, SeqTyped, InBlock;
    LocalTyped(d, k, []);
    ConstTyped(d, W.TI32, b, []);
    LoopTyped(d, loop, one);
    assert [W.TI32] + [] == one;
    InitTyped(d, lower, [W.LocalSet(k), W.I32Const(b)], W.Loop(Some(I32_TO_I32), loop), low, one);
  }

  lemma BlockAround(c: Context, body: Code, t: StackType, one: StackType)
    requires one == [W.TI32] && SeqTyped(InBlock(c), body, [], one)
    ensures SeqTyped(c, [W.Block(Some(VOID_TO_I32), body)], t, one + t)
  {
    assert Reverse([W.TI32]) == one && Reverse<W.ValType>([]) == [] && t[0..] == t;
    OneTyped(c, W.Block(Some(VOID_TO_I32), body), t, one + t);
  }

  lemma LoopTyped(d: Context, loop: Code, one: StackType)
    requires one == [W.TI32] && SeqTyped(InBlock(d), loop, one, one)
    ensures InstrTyped(d, W.Loop(Some(I32_TO_I32), loop), one, one)
  {
    assert Reverse([W.TI32]) == one && one + one[1..] == one;
  }

  /** Code, two instructions and one more. */
  lemma InitTyped(d: Context, lower: Code, two: Code, loop: W.Instr, low: StackType, one: StackType)
    requires |two| == 2 && SeqTyped(d, lower, [], low)
    requires InstrTyped(d, two[0], low, []) && InstrTyped(d, two[1], [], one) && InstrTyped(d, loop, one, one)
    ensures SeqTyped(d, lower + two + [loop], [], one)
  {
    hide SeqTyped, InstrTyped;
    ChainTyped(d, two, [low, [], one]);
    AppendTyped(d, lower, two, [], low, one);
    Snoc(d, lower + two, loop, [], one, one);
  }

  /** The code of a quantifier over a comparison, a negation or a constant is typed and pushes a truth value. */
  lemma QuantifierTyped(c: Context, tenv: TypeEnv, p: Prop, t: StackType)
    requires p.Binder? && PropGenerate(tenv, p).Ok? && Simple(BoundedQuantification(p).value.2)
    requires Places(tenv, c) && Places(tenv.Enter(p.bt), c)
    ensures SeqTyped(c, PropGenerate(tenv, p).value.1, t, [W.TI32] + t)
  {
    var (lower, upper, body) := BoundedQuantification(p).value;
    var inner := tenv.Enter(p.bt);
    var (lowerCode, upperCode) := (TermGenerate(tenv, lower).value.0, TermGenerate(tenv, upper).value.0);
    var (inner', bodyCode) := PropGenerate(inner, body).value;
    SimpleKeeps(inner, body);
    var (d, e) := (InBlock(c), InBlock(InBlock(c)));
    assert Places(tenv, d) && Places(tenv, e) && Places(inner, e);
    TermTyped(d, tenv, lower, []);
    TermTyped(e, tenv, upper, [p.bt] + [W.TI32]);
    PropTyped(e, inner, body, [W.TI32]);
    var combine := if p.q.Forall? then W.And else W.Or;
    assert c.locals[inner.BinderAt(0)] == inner.binders[0] == p.bt;
    LoopBodyTyped(e, inner, p.bt, combine, bodyCode, upperCode);
    BlockOfLoop(c, inner.BinderAt(0), p.bt, lowerCode, if p.q.Forall? then 1 else 0,
      LoopBody(inner, p.bt, combine, bodyCode, upperCode), t);
  }

  lemma {:induction false} SimpleKeeps(tenv: TypeEnv, p: Prop)
    requires Simple(p) && PropGenerate(tenv, p).Ok?
    ensures PropGenerate(tenv, p).value.0 == tenv
  {
    if p.Not? { SimpleKeeps(tenv, p.p); }
  }

  // ---------------------------------------------------------------- the clauses of a contract

  /** The locals the checking function has for the variables of quantifiers, outermost first. */
  function BinderLocals(p: Prop): seq<W.ValType> {
    match p
    case Not(p1) => BinderLocals(p1)
    case BinConnect(_, p1, p2) => BinderLocals(p1) + BinderLocals(p2)
    case Binder(_, bt, p1) => [bt] + BinderLocals(p1)
    case _ => []
  }

  function AllBinderLocals(clauses: seq<Prop>): seq<W.ValType> {
    if clauses == [] then [] else BinderLocals(clauses[0]) + AllBinderLocals(clauses[1..])
  }

  lemma {:induction false} AllOfParts(clauses: seq<Prop>, more: seq<Prop>)
    ensures AllBinderLocals(clauses + more) == AllBinderLocals(clauses) + AllBinderLocals(more)
  {
    hide BinderLocals;
    if clauses == [] {
      assert clauses + more == more;
    } else {
      AllOfParts(clauses[1..], more);
      FirstOfParts(clauses, more);
      Associate(BinderLocals(clauses[0]), AllBinderLocals(clauses[1..]), AllBinderLocals(more));
    }
  }

  lemma FirstOfParts<T>(a: seq<T>, b: seq<T>)
    requires a != []
    ensures a + b != [] && (a + b)[0] == a[0] && (a + b)[1..] == a[1..] + b
  {
  }

  lemma Associate<T>(a: seq<T>, b: seq<T>, d: seq<T>)
    ensures a + (b + d) == a + b + d
  {
  }

  /** There are as many as the compiler enters quantifiers. */
  lemma {:induction false} OneLocalEach(tenv: TypeEnv, p: Prop)
    requires PropGenerate(tenv, p).Ok?
    ensures |BinderLocals(p)| == Binders(p)
    decreases p
  {
    match p
    case Not(p1) => OneLocalEach(tenv, p1);
    case BinConnect(_, p1, p2) =>
      OneLocalEach(tenv, p1);
      OneLocalEach(PropGenerate(tenv, p1).value.0, p2);
    case Binder(_, bt, p1) =>
      OneLocalEach(tenv.Enter(bt), Body(p));
      assert p1.p1.BinConnect? && BinderLocals(p1.p1) == [];
      assert BinderLocals(p1) == BinderLocals(p1.p1) + BinderLocals(p1.p2);
    case _ =>
  }

  lemma {:induction false} BaseAfterAll(tenv: TypeEnv, clauses: seq<Prop>)
    requires After(tenv, clauses).Ok?
    ensures After(tenv, clauses).value.binderBase == tenv.binderBase + |AllBinderLocals(clauses)|
    decreases |clauses|
  {
    if clauses != [] {
      OneLocalEach(tenv, clauses[0]);
      BaseAfter(tenv, clauses[0]);
      BaseAfterAll(PropGenerate(tenv, clauses[0]).value.0, clauses[1..]);
    }
  }

  /**
   * In the checking function of a contract, with its temporary, its results and a local for each quantifier, the
   * code of every well-scoped quantifier clause is typed and leaves a truth value, whatever clauses stand around it.
   */
  lemma ClauseTyped(q: Quant, ty: W.FuncType, earlier: seq<Prop>, later: seq<Prop>, c: Context, t: StackType)
    requires After(BuildTypeEnv(q.m.own, ty), earlier) == Ok(q.tenv) && PropGenerate(q.tenv, q.Statement()).Ok?
    requires Simple(q.body) && PropScoped(q.body, 1) && TermScoped(q.lower, 0) && TermScoped(q.upper, 0)
    requires c.m == q.m.own
    requires c.locals == ty.params + [W.TI32] + ty.results + AllBinderLocals(earlier + [q.Statement()] + later)
    ensures SeqTyped(c, PropGenerate(q.tenv, q.Statement()).value.1, t, [W.TI32] + t)
  {
    CompilesAlike(q);
    ClausePlaces(q, ty, earlier, later, c);
    hide PropGenerate, AllBinderLocals, SeqTyped, After, Places, BuildTypeEnv, TermGenerate, BoundedQuantification;
    BoundedIs(q);
    QuantifierTyped(c, q.Bare(), q.Statement(), t);
  }

  lemma BoundedIs(q: Quant)
    ensures BoundedQuantification(q.Statement()) == Ok((q.lower, q.upper, q.body))
  {
  }

  lemma ClausePlaces(q: Quant, ty: W.FuncType, earlier: seq<Prop>, later: seq<Prop>, c: Context)
    requires After(BuildTypeEnv(q.m.own, ty), earlier) == Ok(q.tenv) && c.m == q.m.own
    requires c.locals == ty.params + [W.TI32] + ty.results + AllBinderLocals(earlier + [q.Statement()] + later)
    ensures Places(q.Bare(), c) && Places(q.Bare().Enter(q.bt), c)
  {
    var tenv, all := BuildTypeEnv(q.m.own, ty), AllBinderLocals(earlier + [q.Statement()] + later);
    AfterKeeps(tenv, earlier);
    BaseAfterAll(tenv, earlier);
    OwnLocal(earlier, q.Statement(), later);
    InOrder(ty.params, W.TI32, ty.results, all);
    hide AllBinderLocals, After, Ordered, Places, BuildTypeEnv;
    InPlace(q.m.own, ty, q.tenv, q.bt, all, |AllBinderLocals(earlier)|, c);
  }

  lemma InPlace(m: W.Module, ty: W.FuncType, tenv: TypeEnv, bt: W.ValType, all: seq<W.ValType>, k: nat, c: Context)
    requires var tenv0 := BuildTypeEnv(m, ty);
      tenv == tenv0.(binders := tenv.binders, binderBase := tenv0.binderBase + k)
    requires c.m == m && Ordered(ty.params, W.TI32, ty.results, all, c.locals) && k < |all| && all[k] == bt
    ensures Places(tenv.(binders := []), c) && Places(tenv.(binders := []).Enter(bt), c)
  {
    assert all[k] == c.locals[|ty.params| + 1 + |ty.results| + k];
  }

  /** s is a, then x, then b, then d. */
  ghost predicate Ordered<T>(a: seq<T>, x: T, b: seq<T>, d: seq<T>, s: seq<T>) {
    && |s| == |a| + 1 + |b| + |d| && s[|a|] == x
    && (forall i {:trigger a[i]} {:trigger s[i]} :: 0 <= i < |a| ==> s[i] == a[i])
    && (forall i {:trigger b[i]} :: 0 <= i < |b| ==> s[|a| + i + 1] == b[i])
    && (forall i {:trigger d[i]} :: 0 <= i < |d| ==> s[|a| + 1 + |b| + i] == d[i])
  }

  lemma InOrder<T>(a: seq<T>, x: T, b: seq<T>, d: seq<T>)
    ensures Ordered(a, x, b, d, a + [x] + b + d)
  {
  }

  lemma OwnLocal(earlier: seq<Prop>, p: Prop, later: seq<Prop>)
    requires p.Binder?
    ensures var (all, k) := (AllBinderLocals(earlier + [p] + later), |AllBinderLocals(earlier)|);
      k < |all| && all[k] == p.bt
  {
    AllOfParts(earlier + [p], later);
    AllOfParts(earlier, [p]);
    assert AllBinderLocals([p]) == BinderLocals(p) + [];
  }
}
