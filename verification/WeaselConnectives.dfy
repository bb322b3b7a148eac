/**
 * Propositions without quantifiers: what they mean, what their code does on every stack, and when the two
 * agree. The if that joins the sides of a connective is given a parameter that nothing pushes, so that every
 * connective reached takes an operand from below.
 */
module WeaselConnectives {
  import opened Prelude
  import opened Words
  import W = Wasm
  import opened Machine
  import opened Structured
  import opened Weasel
  import opened WeaselProofs

  // ---------------------------------------------------------------- meaning

  predicate Joined(c: Connective, b1: bool, b2: bool) {
    match c
    case And => b1 && b2
    case Or => b1 || b2
    case Imply => b1 ==> b2
    case Equiv => b1 == b2
  }

  /** The first side decides alone. */
  predicate Decided(c: Connective, b1: bool) {
    match c
    case And => !b1
    case Or => b1
    case Imply => !b1
    case Equiv => false
  }

  /** From the left, the second side only where the first does not decide. */
  function ConnectValue(c: Connective, r1: W.Result<bool>, r2: W.Result<bool>): W.Result<bool> {
    match r1
    case Trapped(trap) => W.Trapped(trap)
    case Ok(b1) =>
      if Decided(c, b1) then W.Ok(Joined(c, b1, true)) else
      match r2
      case Trapped(trap) => W.Trapped(trap)
      case Ok(b2) => W.Ok(Joined(c, b1, b2))
  }

  /** Evaluating from the left loses nothing: a deciding side decides whatever the other would be. */
  lemma DecidedAlone(c: Connective, b1: bool, b2: bool)
    ensures Decided(c, b1) <==> forall b :: Joined(c, b1, b) == Joined(c, b1, b2)
  {
    assert !Decided(c, b1) ==> Joined(c, b1, !b2) != Joined(c, b1, b2);
  }

  /** No quantifier. */
  predicate Plain(p: Prop) {
    match p
    case Const(_) => true
    case BinPred(_, _, _) => true
    case Not(p1) => Plain(p1)
    case BinConnect(_, p1, p2) => Plain(p1) && Plain(p2)
    case Binder(_, _, _) => false
  }

  lemma {:induction false} PlainKeepsTypes(tenv: TypeEnv, p: Prop)
    requires Plain(p) && PropGenerate(tenv, p).Ok?
    ensures PropGenerate(tenv, p).value.0 == tenv
    ensures p.BinConnect? ==> PropGenerate(tenv, p.p1).Ok? && PropGenerate(tenv, p.p2).Ok?
    ensures p.BinConnect? ==>
      PropGenerate(tenv, p).value.1
      == ConnectGenerate(p.c, PropGenerate(tenv, p.p1).value.1, PropGenerate(tenv, p.p2).value.1)
    decreases p
  {
    match p
    case Not(p1) => PlainKeepsTypes(tenv, p1);
    case BinConnect(_, p1, p2) =>
      PlainKeepsTypes(tenv, p1);
      PlainKeepsTypes(tenv, p2);
    case _ =>
  }

  /** A proposition without quantifiers that compiles. */
  predicate Compiles(tenv: TypeEnv, p: Prop) {
    Plain(p) && PropGenerate(tenv, p).Ok?
  }

  function CodeOf(tenv: TypeEnv, p: Prop): Code requires Compiles(tenv, p) { PropGenerate(tenv, p).value.1 }

  function Meaning(tenv: TypeEnv, env: Env, p: Prop): W.Result<bool>
    requires env.Types(tenv) && Compiles(tenv, p)
    decreases p
  {
    PlainKeepsTypes(tenv, p);
    match p
    case Not(p1) =>
      (match Meaning(tenv, env, p1)
       case Trapped(trap) => W.Trapped(trap)
       case Ok(b) => W.Ok(!b))
    case BinConnect(c, p1, p2) => ConnectValue(c, Meaning(tenv, env, p1), Meaning(tenv, env, p2))
    case Const(_) => PropValue(tenv, env, p)
    case BinPred(_, _, _) => PropValue(tenv, env, p)
  }

  // ---------------------------------------------------------------- what the code does

  /** It leaves an integer in place of the operands taken, traps, or faults. */
  datatype Effect = Left(v: int32) | Trapping(trap: W.Trap) | Faulting

  function OfTruth(r: W.Result<bool>): Effect {
    match r
    case Trapped(trap) => Trapping(trap)
    case Ok(b) => Left(if b then 1 else 0)
  }

  /** How many operands below the result are taken: one for each connective that is reached first. */
  function Taken(p: Prop): nat {
    match p
    case Not(p1) => Taken(p1)
    case BinConnect(_, p1, _) => Taken(p1) + 1
    case _ => 0
  }

  function Tail(stack: seq<W.Value>): seq<W.Value> { if stack == [] then [] else stack[1..] }

  /** The operands not taken. */
  function Below(p: Prop, stack: seq<W.Value>): seq<W.Value> {
    match p
    case Not(p1) => Below(p1, stack)
    case BinConnect(_, p1, _) => Tail(Below(p1, stack))
    case _ => stack
  }

  lemma {:induction false} BelowIs(p: Prop, stack: seq<W.Value>)
    ensures Taken(p) <= |stack| ==> Below(p, stack) == stack[Taken(p)..]
    ensures |Below(p, stack)| == if Taken(p) <= |stack| then |stack| - Taken(p) else 0
  {
    match p
    case Not(p1) => BelowIs(p1, stack);
    case BinConnect(_, p1, _) => BelowIs(p1, stack);
    case _ =>
  }

  function Xor(x: int32, y: int32): int32 {
    W.Wrap(W.S32, W.Bitwise(W.Xor, W.U(W.S32, x), W.U(W.S32, y), 32))
  }

  /** Exclusive or with the operand below. */
  function Flip(e: Effect, below: seq<W.Value>): Effect {
    if !e.Left? then e else if below == [] || !below[0].I32? then Faulting else Left(Xor(below[0].i, e.v))
  }

  const ONE: W.Value := W.I32(1)

  /** The code on a stack; a negation pushes 1 first, and a connective under it takes that. */
  function EffectOf(tenv: TypeEnv, env: Env, p: Prop, stack: seq<W.Value>): Effect
    requires env.Types(tenv) && Compiles(tenv, p)
    decreases p, 0
  {
    PlainKeepsTypes(tenv, p);
    match p
    case Not(p1) => NotEffect(tenv, env, p1, stack)
    case BinConnect(c, p1, p2) =>
      (match EffectOf(tenv, env, p1, stack)
       case Left(v) =>
         JoinEffect(tenv, env, c, v, p2, Below(p1, stack))
       case e => e)
    case Const(_) => OfTruth(PropValue(tenv, env, p))
    case BinPred(_, _, _) => OfTruth(PropValue(tenv, env, p))
  }

  function NotEffect(tenv: TypeEnv, env: Env, p1: Prop, stack: seq<W.Value>): Effect
    requires env.Types(tenv) && Compiles(tenv, p1)
    decreases p1, 1
  {
    var e := EffectOf(tenv, env, p1, [ONE] + stack);
    if e.Left? then Flip(e, Below(p1, [ONE] + stack)) else e
  }

  /** The branch of the if that the first side's integer selects, which sees all that is below. */
  function BranchEffect(tenv: TypeEnv, env: Env, c: Connective, v: int32, p2: Prop, below: seq<W.Value>): Effect
    requires env.Types(tenv) && Compiles(tenv, p2)
    decreases p2, 2
  {
    if Decided(c, v != 0) then Left(if c.And? then 0 else 1)
    else if c.Equiv? && v == 0 then NotEffect(tenv, env, p2, below)
    else EffectOf(tenv, env, p2, below)
  }

  /** What the join does over the operands left by the first side. */
  function JoinEffect(tenv: TypeEnv, env: Env, c: Connective, v: int32, p2: Prop, below: seq<W.Value>): Effect
    requires env.Types(tenv) && Compiles(tenv, p2)
    decreases p2, 3
  {
    if below == [] then Faulting else BranchEffect(tenv, env, c, v, p2, below)
  }

  /** Going on after code of that effect, with what is below its result. */
  function After(m: W.Linked, n: nat, e: Effect, rest: Code, below: seq<W.Value>, locals: seq<W.Value>,
      rt: nat): Outcome
  {
    match e
    case Left(v) => EvalSeq(m, n, rest, [W.I32(v)] + below, locals, rt)
    case Trapping(trap) => Stop(TrapRun(trap))
    case Faulting => Stop(Fault)
  }

  /** Turns that are enough. */
  function Cost(tenv: TypeEnv, p: Prop): nat
    requires Compiles(tenv, p)
    decreases p
  {
    PlainKeepsTypes(tenv, p);
    match p
    case Not(p1) => Cost(tenv, p1) + 2
    case BinConnect(_, p1, p2) => Cost(tenv, p1) + Cost(tenv, p2) + 4
    case Const(_) => |CodeOf(tenv, p)|
    case BinPred(_, _, _) => |CodeOf(tenv, p)|
  }

  ghost predicate Set(m: W.Linked, tenv: TypeEnv, env: Env, p: Prop, locals: seq<W.Value>) {
    Laid(tenv, env, locals) && env.Types(tenv) && env.globals == m.own.globals && Compiles(tenv, p)
  }

  lemma XorStep(m: W.Linked, n: nat, v: int32, rest: Code, below: seq<W.Value>, locals: seq<W.Value>, rt: nat)
    requires n > 0
    ensures EvalSeq(m, n, [W.IBinop(W.S32, W.Xor)] + rest, [W.I32(v)] + below, locals, rt)
         == After(m, n - 1, Flip(Left(v), below), rest, Tail(below), locals, rt)
  {
    hide EvalSeq, W.Wrap, W.Bitwise;
    var s := [W.I32(v)] + below;
    PlainStep(m, n, W.IBinop(W.S32, W.Xor), rest, s, locals, rt);
    if below != [] { assert s[2..] == below[1..]; }
  }

  lemma NotShape(tenv: TypeEnv, p1: Prop)
    requires Compiles(tenv, p1)
    ensures Compiles(tenv, Not(p1))
    ensures CodeOf(tenv, Not(p1)) == [PROP_TRUE] + CodeOf(tenv, p1) + [W.IBinop(W.S32, W.Xor)]
  {
  }

  /** Compiler correctness: code without quantifiers has that effect on every stack. */
  lemma {:induction false} EffectCorrect(m: W.Linked, n: nat, tenv: TypeEnv, env: Env, p: Prop, rest: Code,
      stack: seq<W.Value>, locals: seq<W.Value>, rt: nat) returns (used: nat)
    requires Set(m, tenv, env, p, locals) && n >= Cost(tenv, p)
    ensures used <= Cost(tenv, p)
    ensures EvalSeq(m, n, CodeOf(tenv, p) + rest, stack, locals, rt)
         == After(m, n - used, EffectOf(tenv, env, p, stack), rest, Below(p, stack), locals, rt)
    decreases p, 1
  {
    hide EvalSeq, env.Types;
    if p.Not? {
      used := NotEffectCorrect(m, n, tenv, env, p.p, rest, stack, locals, rt);
    } else if p.BinConnect? {
      used := ConnectCorrect(m, n, tenv, env, p.c, p.p1, p.p2, rest, stack, locals, rt);
    } else {
      used := |CodeOf(tenv, p)|;
      PropCorrect(m, n, tenv, env, p, rest, stack, locals, rt);
    }
  }

  /** The 1 that a negation pushes counts among the operands. */
  lemma {:induction false} BelowOne(p1: Prop, stack: seq<W.Value>)
    ensures Tail(Below(p1, [ONE] + stack)) == Below(p1, stack)
  {
    match p1
    case Not(p) => BelowOne(p, stack);
    case BinConnect(_, p, _) => BelowOne(p, stack);
    case _ =>
  }

  lemma {:induction false} NotEffectCorrect(m: W.Linked, n: nat, tenv: TypeEnv, env: Env, p1: Prop, rest: Code,
      stack: seq<W.Value>, locals: seq<W.Value>, rt: nat) returns (used: nat)
    requires Set(m, tenv, env, p1, locals) && n >= Cost(tenv, p1) + 2
    ensures used <= Cost(tenv, p1) + 2 && Compiles(tenv, Not(p1))
    ensures EvalSeq(m, n, CodeOf(tenv, Not(p1)) + rest, stack, locals, rt)
         == After(m, n - used, NotEffect(tenv, env, p1, stack), rest, Below(p1, stack), locals, rt)
    decreases p1, 2
  {
    hide EvalSeq, EffectOf, Laid, env.Types;
    NotShape(tenv, p1);
    var xor := [W.IBinop(W.S32, W.Xor)] + rest;
    assert CodeOf(tenv, Not(p1)) + rest == [PROP_TRUE] + (CodeOf(tenv, p1) + xor);
    PlainStep(m, n, PROP_TRUE, CodeOf(tenv, p1) + xor, stack, locals, rt);
    var inner := EffectCorrect(m, n - 1, tenv, env, p1, xor, [ONE] + stack, locals, rt);
    var e := EffectOf(tenv, env, p1, [ONE] + stack);
    used := 1 + inner;
    if e.Left? {
      XorStep(m, n - used, e.v, rest, Below(p1, [ONE] + stack), locals, rt);
      used := used + 1;
      BelowOne(p1, stack);
    }
  }

  function Branches(c: Connective, e2: Code): (Code, Code) {
    match c
    case And => (e2, [PROP_FALSE])
    case Or => ([PROP_TRUE], e2)
    case Imply => (e2, [PROP_TRUE])
    case Equiv => (e2, [PROP_TRUE] + e2 + [W.IBinop(W.S32, W.Xor)])
  }

  function JoinCode(c: Connective, e2: Code): Code {
    var (thn, els) := Branches(c, e2);
    [W.IfElse(Some(I32_TO_I32), thn, els)]
  }

  lemma ConnectShape(tenv: TypeEnv, c: Connective, p1: Prop, p2: Prop)
    requires Compiles(tenv, BinConnect(c, p1, p2))
    ensures Compiles(tenv, p1) && Compiles(tenv, p2)
    ensures CodeOf(tenv, BinConnect(c, p1, p2)) == CodeOf(tenv, p1) + JoinCode(c, CodeOf(tenv, p2))
  {
    PlainKeepsTypes(tenv, BinConnect(c, p1, p2));
  }

  lemma JoinEntered(m: W.Linked, n: nat, c: Connective, e2: Code, v: int32, rest: Code, stack: seq<W.Value>,
      locals: seq<W.Value>, rt: nat)
    requires n > 0
    ensures var (thn, els) := Branches(c, e2);
      EvalSeq(m, n, JoinCode(c, e2) + rest, [W.I32(v)] + stack, locals, rt)
      == match EvalBlock(m, n - 1, I32_TO_I32, if v != 0 then thn else els, stack, locals, rt)
         case Normal(k, s, l) => EvalSeq(m, k, rest, s, l, rt)
         case o => o
  {
  }

  /** A branch leaves its integer on top of what it did not take, which the end of the block then replaces. */
  lemma {:induction false} BranchCorrect(m: W.Linked, n: nat, tenv: TypeEnv, env: Env, c: Connective, v: int32,
      p2: Prop, below: seq<W.Value>, locals: seq<W.Value>, rt: nat) returns (used: nat, kept: seq<W.Value>)
    requires Set(m, tenv, env, p2, locals) && n >= Cost(tenv, p2) + 2
    ensures used <= Cost(tenv, p2) + 2
    ensures var (thn, els) := Branches(c, CodeOf(tenv, p2));
      EvalSeq(m, n, if v != 0 then thn else els, below, locals, rt)
      == After(m, n - used, BranchEffect(tenv, env, c, v, p2, below), [], kept, locals, rt)
    decreases p2, 3
  {
    hide EvalSeq, EffectOf, NotEffect, Laid, env.Types;
    var e2 := CodeOf(tenv, p2);
    if Decided(c, v != 0) {
      used, kept := 1, below;
      var i := if c.And? then PROP_FALSE else PROP_TRUE;
      assert [i] + [] == if v != 0 then Branches(c, e2).0 else Branches(c, e2).1;
      PlainStep(m, n, i, [], below, locals, rt);
    } else if c.Equiv? && v == 0 {
      used := NotEffectCorrect(m, n, tenv, env, p2, [], below, locals, rt);
      kept := Below(p2, below);
      NotShape(tenv, p2);
      assert CodeOf(tenv, Not(p2)) + [] == Branches(c, e2).1;
    } else {
      used := EffectCorrect(m, n, tenv, env, p2, [], below, locals, rt);
      kept := Below(p2, below);
      assert e2 + [] == e2;
    }
  }

  /** The block of the join gives its parameter back for the result, whatever its body leaves below that. */
  lemma BlockEnds(m: W.Linked, n: nat, body: Code, e: Effect, left: nat, kept: seq<W.Value>, below: seq<W.Value>,
      locals: seq<W.Value>, rt: nat)
    requires EvalSeq(m, n, body, below, locals, rt) == After(m, left, e, [], kept, locals, rt)
    ensures EvalBlock(m, n, I32_TO_I32, body, below, locals, rt)
         == if below == [] then Stop(Fault)
            else if e.Left? then Leave(left, 1, Tail(below), [W.I32(e.v)] + kept, locals)
            else After(m, left, e, [], kept, locals, rt)
  {
    hide EvalSeq;
    if e.Left? { EmptySeq(m, left, [W.I32(e.v)] + kept, locals, rt); }
  }

  lemma {:induction false} JoinCorrect(m: W.Linked, n: nat, tenv: TypeEnv, env: Env, c: Connective, v: int32, p2: Prop,
      rest: Code, below: seq<W.Value>, locals: seq<W.Value>, rt: nat) returns (used: nat)
    requires Set(m, tenv, env, p2, locals) && n >= Cost(tenv, p2) + 4
    ensures used <= Cost(tenv, p2) + 4
    ensures EvalSeq(m, n, JoinCode(c, CodeOf(tenv, p2)) + rest, [W.I32(v)] + below, locals, rt)
         == After(m, n - used, JoinEffect(tenv, env, c, v, p2, below), rest, Tail(below), locals, rt)
    decreases p2, 4
  {
    hide EvalSeq, EvalBlock, BranchEffect, CodeOf, JoinCode, Cost, Laid, env.Types;
    var e2 := CodeOf(tenv, p2);
    var body := if v != 0 then Branches(c, e2).0 else Branches(c, e2).1;
    JoinEntered(m, n, c, e2, v, rest, below, locals, rt);
    var inner, kept := BranchCorrect(m, n - 1, tenv, env, c, v, p2, below, locals, rt);
    var e := BranchEffect(tenv, env, c, v, p2, below);
    BlockEnds(m, n - 1, body, e, n - 1 - inner, kept, below, locals, rt);
    used := inner + 2;
    if e.Left? { assert Keep([W.I32(e.v)] + kept, 1) == [W.I32(e.v)]; }
  }

  lemma ConnectEffect(tenv: TypeEnv, env: Env, c: Connective, p1: Prop, p2: Prop, stack: seq<W.Value>)
    requires env.Types(tenv) && Compiles(tenv, BinConnect(c, p1, p2)) && Compiles(tenv, p1) && Compiles(tenv, p2)
    ensures var e := EffectOf(tenv, env, p1, stack);
      EffectOf(tenv, env, BinConnect(c, p1, p2), stack)
      == if e.Left? then JoinEffect(tenv, env, c, e.v, p2, Below(p1, stack)) else e
    ensures Cost(tenv, BinConnect(c, p1, p2)) == Cost(tenv, p1) + Cost(tenv, p2) + 4
  {
    hide BranchEffect;
  }

  lemma {:induction false} ConnectCorrect(m: W.Linked, n: nat, tenv: TypeEnv, env: Env, c: Connective, p1: Prop,
      p2: Prop, rest: Code, stack: seq<W.Value>, locals: seq<W.Value>, rt: nat) returns (used: nat)
    requires Set(m, tenv, env, BinConnect(c, p1, p2), locals) && n >= Cost(tenv, BinConnect(c, p1, p2))
    ensures used <= Cost(tenv, BinConnect(c, p1, p2))
    ensures var p := BinConnect(c, p1, p2);
      EvalSeq(m, n, CodeOf(tenv, p) + rest, stack, locals, rt)
      == After(m, n - used, EffectOf(tenv, env, p, stack), rest, Below(p, stack), locals, rt)
    decreases BinConnect(c, p1, p2), 0
  {
    SidesSet(m, tenv, env, c, p1, p2, locals);
    hide EvalSeq, EffectOf, JoinEffect, CodeOf, JoinCode, Cost, Set, After, Compiles, env.Types, Tail, Taken;
    ConnectEffect(tenv, env, c, p1, p2, stack);
    used := FirstSide(m, n, tenv, env, c, p1, p2, rest, stack, locals, rt);
    var e, below := EffectOf(tenv, env, p1, stack), Below(p1, stack);
    AfterIs(m, n - used, e, JoinCode(c, CodeOf(tenv, p2)) + rest, below, rest, Tail(below), locals, rt);
    if e.Left? {
      var inner := JoinCorrect(m, n - used, tenv, env, c, e.v, p2, rest, below, locals, rt);
      used := used + inner;
    }
  }

  lemma SidesSet(m: W.Linked, tenv: TypeEnv, env: Env, c: Connective, p1: Prop, p2: Prop, locals: seq<W.Value>)
    requires Set(m, tenv, env, BinConnect(c, p1, p2), locals)
    ensures env.Types(tenv) && Compiles(tenv, p1) && Compiles(tenv, p2) && Compiles(tenv, BinConnect(c, p1, p2))
    ensures Set(m, tenv, env, p1, locals) && Set(m, tenv, env, p2, locals)
  {
    ConnectShape(tenv, c, p1, p2);
  }

  lemma AfterIs(m: W.Linked, n: nat, e: Effect, rest: Code, below: seq<W.Value>, rest': Code, below': seq<W.Value>,
      locals: seq<W.Value>, rt: nat)
    ensures After(m, n, e, rest, below, locals, rt)
         == if e.Left? then EvalSeq(m, n, rest, [W.I32(e.v)] + below, locals, rt)
            else After(m, n, e, rest', below', locals, rt)
  {
  }

  /** The first side, then the join. */
  lemma {:induction false} FirstSide(m: W.Linked, n: nat, tenv: TypeEnv, env: Env, c: Connective, p1: Prop,
      p2: Prop, rest: Code, stack: seq<W.Value>, locals: seq<W.Value>, rt: nat) returns (used: nat)
    requires Set(m, tenv, env, BinConnect(c, p1, p2), locals) && Compiles(tenv, p1) && Compiles(tenv, p2)
    requires n >= Cost(tenv, p1)
    ensures used <= Cost(tenv, p1)
    ensures EvalSeq(m, n, CodeOf(tenv, BinConnect(c, p1, p2)) + rest, stack, locals, rt)
         == After(m, n - used, EffectOf(tenv, env, p1, stack), JoinCode(c, CodeOf(tenv, p2)) + rest,
              Below(p1, stack), locals, rt)
    decreases p1, 2
  {
    ConnectShape(tenv, c, p1, p2);
    hide EvalSeq, EffectOf, CodeOf, JoinCode, Cost, Below, After, PropGenerate, env.Types;
    var join := JoinCode(c, CodeOf(tenv, p2));
    assert (CodeOf(tenv, p1) + join) + rest == CodeOf(tenv, p1) + (join + rest);
    used := EffectCorrect(m, n, tenv, env, p1, join + rest, stack, locals, rt);
  }

  // ---------------------------------------------------------------- how many operands are lost

  lemma {:induction false} TakenIffConnective(p: Prop)
    requires Plain(p)
    ensures Taken(p) == 0 <==> Simple(p)
  {
    if p.Not? { TakenIffConnective(p.p); }
  }

  lemma {:induction false} NoneTaken(p: Prop, stack: seq<W.Value>)
    requires Simple(p)
    ensures Below(p, stack) == stack
  {
    if p.Not? { NoneTaken(p.p, stack); }
  }

  /** A result is left only where the operands to be taken were there. */
  lemma {:induction false} LeftHasOperands(tenv: TypeEnv, env: Env, p: Prop, stack: seq<W.Value>)
    requires env.Types(tenv) && Compiles(tenv, p) && EffectOf(tenv, env, p, stack).Left?
    ensures |stack| >= Taken(p)
    decreases p
  {
    PlainKeepsTypes(tenv, p);
    match p
    case Not(p1) => BelowIs(p1, [ONE] + stack);
    case BinConnect(_, p1, _) => BelowIs(p1, stack);
    case _ =>
  }

  lemma FlipTruthValue(b: bool, stack: seq<W.Value>)
    ensures Flip(Left(if b then 1 else 0), [ONE] + stack) == Left(if b then 0 else 1)
  {
    hide W.Bitwise;
    BitwiseOfBits(W.Xor, 1, if b then 1 else 0);
  }

  lemma {:induction false} SimpleEffect(tenv: TypeEnv, env: Env, p: Prop, stack: seq<W.Value>)
    requires env.Types(tenv) && Compiles(tenv, p) && Simple(p)
    ensures EffectOf(tenv, env, p, stack) == OfTruth(Meaning(tenv, env, p))
    ensures Meaning(tenv, env, p) == PropValue(tenv, env, p)
    decreases p
  {
    hide Flip;
    if p.Not? {
      SimpleEffect(tenv, env, p.p, [ONE] + stack);
      var r := Meaning(tenv, env, p.p);
      if r.Ok? {
        FlipTruthValue(r.value, stack);
        NoneTaken(p.p, [ONE] + stack);
      }
    }
  }

  /** Negations and the second sides of equivalences are over propositions without connectives. */
  predicate Positive(p: Prop) {
    match p
    case Const(_) => true
    case BinPred(_, _, _) => true
    case Not(p1) => Simple(p1)
    case BinConnect(c, p1, p2) => Positive(p1) && if c.Equiv? then Simple(p2) else Positive(p2)
    case Binder(_, _, _) => false
  }

  lemma {:induction false} PositiveIsPlain(p: Prop)
    ensures Simple(p) ==> Plain(p) && Positive(p)
    ensures Positive(p) ==> Plain(p)
  {
    match p
    case Not(p1) => PositiveIsPlain(p1);
    case BinConnect(_, p1, p2) =>
      PositiveIsPlain(p1);
      PositiveIsPlain(p2);
    case _ =>
  }

  function Max(a: nat, b: nat): nat { if a < b then b else a }

  /** How many operands must be there for the evaluation to come to its end or its trap. */
  function Needed(tenv: TypeEnv, env: Env, p: Prop): nat
    requires env.Types(tenv) && Compiles(tenv, p)
    decreases p
  {
    PlainKeepsTypes(tenv, p);
    match p
    case BinConnect(c, p1, p2) =>
      (match Meaning(tenv, env, p1)
       case Trapped(_) => Needed(tenv, env, p1)
       case Ok(b) =>
         var second := if Decided(c, b) then 0 else Needed(tenv, env, p2);
         Max(Needed(tenv, env, p1), Taken(p1) + Max(1, second)))
    case _ => 0
  }

  /** With that many the code leaves the truth or traps as meant; with fewer it faults. */
  lemma {:induction false} PositiveEffect(tenv: TypeEnv, env: Env, p: Prop, stack: seq<W.Value>)
    requires env.Types(tenv) && Compiles(tenv, p) && Positive(p)
    ensures EffectOf(tenv, env, p, stack)
         == if |stack| >= Needed(tenv, env, p) then OfTruth(Meaning(tenv, env, p)) else Faulting
    decreases p, 0
  {
    if !p.BinConnect? {
      SimpleEffect(tenv, env, p, stack);
    } else {
      PlainKeepsTypes(tenv, p);
      PositiveEffect(tenv, env, p.p1, stack);
      var r1, e := Meaning(tenv, env, p.p1), EffectOf(tenv, env, p.p1, stack);
      BelowIs(p.p1, stack);
      if e.Left? {
        LeftHasOperands(tenv, env, p.p1, stack);
        PositiveBranch(tenv, env, p.c, r1.value, p.p2, Below(p.p1, stack));
      }
    }
  }

  lemma {:induction false} PositiveBranch(tenv: TypeEnv, env: Env, c: Connective, b: bool, p2: Prop,
      below: seq<W.Value>)
    requires env.Types(tenv) && Compiles(tenv, p2) && if c.Equiv? then Simple(p2) else Positive(p2)
    ensures BranchEffect(tenv, env, c, if b then 1 else 0, p2, below)
         == if Decided(c, b) || |below| >= Needed(tenv, env, p2)
            then OfTruth(ConnectValue(c, W.Ok(b), Meaning(tenv, env, p2))) else Faulting
    decreases p2, 1
  {
    if c.Equiv? {
      PlainKeepsTypes(tenv, p2);
      NeedsNothing(tenv, env, p2);
      SimpleEffect(tenv, env, p2, below);
      SimpleEffect(tenv, env, Not(p2), below);
    } else if !Decided(c, b) {
      PositiveEffect(tenv, env, p2, below);
    }
  }

  lemma NeedsNothing(tenv: TypeEnv, env: Env, p: Prop)
    requires env.Types(tenv) && Compiles(tenv, p) && Simple(p)
    ensures Needed(tenv, env, p) == 0
  {
  }

  /**
   * Over enough operands the code of comparisons, negations of them and connectives, nested in any way, does
   * what is meant on the stack without those it takes; over fewer it faults.
   */
  lemma ConnectiveTakesOperand(m: W.Linked, n: nat, tenv: TypeEnv, env: Env, p: Prop, rest: Code,
      stack: seq<W.Value>, locals: seq<W.Value>, rt: nat) returns (used: nat)
    requires Set(m, tenv, env, p, locals) && Positive(p) && n >= Cost(tenv, p)
    ensures used <= n
    ensures |stack| >= Needed(tenv, env, p) ==>
      (Meaning(tenv, env, p).Ok? ==> Taken(p) <= |stack|)
      && EvalSeq(m, n, CodeOf(tenv, p) + rest, stack, locals, rt)
         == ThenTruth(m, n - used, Meaning(tenv, env, p), rest, Below(p, stack), locals, rt)
    ensures |stack| < Needed(tenv, env, p) ==>
      EvalSeq(m, n, CodeOf(tenv, p) + rest, stack, locals, rt) == Stop(Fault)
  {
    hide EvalSeq, EffectOf, Meaning, Needed, CodeOf, Laid, env.Types;
    used := EffectCorrect(m, n, tenv, env, p, rest, stack, locals, rt);
    PositiveEffect(tenv, env, p, stack);
    if Meaning(tenv, env, p).Ok? && |stack| >= Needed(tenv, env, p) { LeftHasOperands(tenv, env, p, stack); }
  }

  /** A trap in the first side is the trap of the whole. */
  lemma FirstSideTraps(m: W.Linked, n: nat, tenv: TypeEnv, env: Env, c: Connective, p1: Prop, p2: Prop, rest: Code,
      stack: seq<W.Value>, locals: seq<W.Value>, rt: nat)
    requires Set(m, tenv, env, BinConnect(c, p1, p2), locals) && n >= Cost(tenv, BinConnect(c, p1, p2))
    requires Compiles(tenv, p1) && EffectOf(tenv, env, p1, stack).Trapping?
    ensures EvalSeq(m, n, CodeOf(tenv, BinConnect(c, p1, p2)) + rest, stack, locals, rt)
         == Stop(TrapRun(EffectOf(tenv, env, p1, stack).trap))
  {
    hide EvalSeq, Laid, env.Types;
    var _ := EffectCorrect(m, n, tenv, env, BinConnect(c, p1, p2), rest, stack, locals, rt);
  }

  /** A connective whose first side does not trap faults when nothing is left for it, whatever the second side. */
  lemma ConnectiveFaults(m: W.Linked, n: nat, tenv: TypeEnv, env: Env, c: Connective, p1: Prop, p2: Prop, rest: Code,
      stack: seq<W.Value>, locals: seq<W.Value>, rt: nat)
    requires Set(m, tenv, env, BinConnect(c, p1, p2), locals) && n >= Cost(tenv, BinConnect(c, p1, p2))
    requires |stack| <= Taken(p1)
    ensures Compiles(tenv, p1) && var e := EffectOf(tenv, env, p1, stack);
      EvalSeq(m, n, CodeOf(tenv, BinConnect(c, p1, p2)) + rest, stack, locals, rt)
      == if e.Trapping? then Stop(TrapRun(e.trap)) else Stop(Fault)
  {
    hide EvalSeq, Laid, env.Types;
    ConnectShape(tenv, c, p1, p2);
    BelowIs(p1, stack);
    var _ := EffectCorrect(m, n, tenv, env, BinConnect(c, p1, p2), rest, stack, locals, rt);
  }

  // ---------------------------------------------------------------- when the two agree

  /**
   * From n turns, followed by rest, the code comes to having left turns and the truth on the stack, or to
   * the trap meant.
   */
  ghost predicate ComesTo(m: W.Linked, n: nat, left: nat, tenv: TypeEnv, env: Env, p: Prop, rest: Code,
      stack: seq<W.Value>, locals: seq<W.Value>, rt: nat)
    requires Set(m, tenv, env, p, locals)
  {
    EvalSeq(m, n, CodeOf(tenv, p) + rest, stack, locals, rt)
    == ThenTruth(m, left, Meaning(tenv, env, p), rest, stack, locals, rt)
  }

  ghost predicate AgreesAt(m: W.Linked, n: nat, tenv: TypeEnv, env: Env, p: Prop, rest: Code,
      stack: seq<W.Value>, locals: seq<W.Value>, rt: nat)
    requires Set(m, tenv, env, p, locals)
  {
    exists left: nat :: ComesTo(m, n, left, tenv, env, p, rest, stack, locals, rt)
  }

  ghost predicate AgreesFrom(m: W.Linked, enough: nat, tenv: TypeEnv, env: Env, p: Prop,
      stack: seq<W.Value>, locals: seq<W.Value>, rt: nat)
    requires Set(m, tenv, env, p, locals)
  {
    forall n: nat, rest: Code :: n >= enough ==> AgreesAt(m, n, tenv, env, p, rest, stack, locals, rt)
  }

  /** The code does on this stack what it should: given enough turns it pushes the truth, or traps as meant. */
  ghost predicate Agrees(m: W.Linked, tenv: TypeEnv, env: Env, p: Prop, stack: seq<W.Value>, locals: seq<W.Value>,
      rt: nat)
    requires Set(m, tenv, env, p, locals)
  {
    exists enough: nat :: AgreesFrom(m, enough, tenv, env, p, stack, locals, rt)
  }

  /** No connective, or a trap and the one that is meant. */
  ghost predicate Right(tenv: TypeEnv, env: Env, p: Prop, stack: seq<W.Value>)
    requires env.Types(tenv) && Compiles(tenv, p)
  {
    var e := EffectOf(tenv, env, p, stack);
    Simple(p) || (e.Trapping? && Meaning(tenv, env, p) == W.Trapped(e.trap))
  }

  lemma AfterTruth(m: W.Linked, n: nat, r: W.Result<bool>, rest: Code, below: seq<W.Value>, stack: seq<W.Value>,
      locals: seq<W.Value>, rt: nat)
    requires r.Trapped? || below == stack
    ensures After(m, n, OfTruth(r), rest, below, locals, rt) == ThenTruth(m, n, r, rest, stack, locals, rt)
  {
    hide EvalSeq;
  }

  lemma RightAgrees(m: W.Linked, n: nat, tenv: TypeEnv, env: Env, p: Prop, rest: Code,
      stack: seq<W.Value>, locals: seq<W.Value>, rt: nat)
    requires Set(m, tenv, env, p, locals) && n >= Cost(tenv, p) && Right(tenv, env, p, stack)
    ensures AgreesAt(m, n, tenv, env, p, rest, stack, locals, rt)
  {
    var r, below := Meaning(tenv, env, p), Below(p, stack);
    if Simple(p) {
      SimpleEffect(tenv, env, p, stack);
      NoneTaken(p, stack);
    }
    assert EffectOf(tenv, env, p, stack) == OfTruth(r);
    hide EvalSeq, EffectOf, Meaning, CodeOf, Cost, env.Types, Set, Below, After, ThenTruth, OfTruth;
    var used := EffectCorrect(m, n, tenv, env, p, rest, stack, locals, rt);
    AfterTruth(m, n - used, r, rest, below, stack, locals, rt);
    assert ComesTo(m, n, n - used, tenv, env, p, rest, stack, locals, rt);
  }

  lemma WrongDisagrees(m: W.Linked, n: nat, tenv: TypeEnv, env: Env, p: Prop,
      stack: seq<W.Value>, locals: seq<W.Value>, rt: nat)
    requires Set(m, tenv, env, p, locals) && n >= Cost(tenv, p) && !Right(tenv, env, p, stack)
    ensures !AgreesAt(m, n, tenv, env, p, [], stack, locals, rt)
  {
    hide EvalSeq, EffectOf, Meaning, CodeOf, Laid, Cost, env.Types;
    var used := EffectCorrect(m, n, tenv, env, p, [], stack, locals, rt);
    TakenIffConnective(p);
    BelowIs(p, stack);
    var e, r := EffectOf(tenv, env, p, stack), Meaning(tenv, env, p);
    if e.Left? {
      LeftHasOperands(tenv, env, p, stack);
      EmptySeq(m, n - used, [W.I32(e.v)] + Below(p, stack), locals, rt);
    }
    forall left: nat ensures !ComesTo(m, n, left, tenv, env, p, [], stack, locals, rt) {
      if r.Ok? { EmptySeq(m, left, [W.OfBool(r.value)] + stack, locals, rt); }
      if r.Ok? && e.Left? { assert |[W.I32(e.v)] + Below(p, stack)| < |[W.OfBool(r.value)] + stack|; }
    }
  }

  /**
   * The code of a proposition without quantifiers agrees with its meaning on a stack if and only if it has no
   * connective, or a trap is reached, the one that is meant.
   */
  lemma AgreesOnlyOnTraps(m: W.Linked, tenv: TypeEnv, env: Env, p: Prop, stack: seq<W.Value>, locals: seq<W.Value>,
      rt: nat)
    requires Set(m, tenv, env, p, locals)
    ensures Agrees(m, tenv, env, p, stack, locals, rt) <==> Right(tenv, env, p, stack)
  {
    hide AgreesAt, Right, Laid, Cost;
    var cost := Cost(tenv, p);
    if Right(tenv, env, p, stack) {
      forall n: nat, rest: Code | n >= cost ensures AgreesAt(m, n, tenv, env, p, rest, stack, locals, rt) {
        RightAgrees(m, n, tenv, env, p, rest, stack, locals, rt);
      }
      assert AgreesFrom(m, cost, tenv, env, p, stack, locals, rt);
    } else {
      forall enough: nat ensures !AgreesFrom(m, enough, tenv, env, p, stack, locals, rt) {
        WrongDisagrees(m, enough + cost, tenv, env, p, stack, locals, rt);
        assert !AgreesAt(m, enough + cost, tenv, env, p, [], stack, locals, rt);
      }
    }
  }

  /**
   * For comparisons, negations of them and connectives of these that is: no connective, or a trap is meant and
   * the stack holds what is needed to come to it.
   */
  lemma PositiveRight(tenv: TypeEnv, env: Env, p: Prop, stack: seq<W.Value>)
    requires env.Types(tenv) && Compiles(tenv, p) && Positive(p)
    ensures Right(tenv, env, p, stack)
      <==> Simple(p) || (Meaning(tenv, env, p).Trapped? && |stack| >= Needed(tenv, env, p))
  {
    hide EffectOf, Meaning, Needed;
    PositiveEffect(tenv, env, p, stack);
  }

  /** A negation of a connective flips by an operand from below instead of the 1 it pushed, which was taken. */
  lemma NegationMixes(tenv: TypeEnv, env: Env, p1: Prop, stack: seq<W.Value>)
    requires env.Types(tenv) && Compiles(tenv, p1) && Positive(p1) && !Simple(p1)
    requires Compiles(tenv, Not(p1)) && |stack| + 1 >= Needed(tenv, env, p1) && Meaning(tenv, env, p1).Ok?
    ensures 0 < Taken(p1) <= |stack| + 1
    ensures EffectOf(tenv, env, Not(p1), stack) == Flip(OfTruth(Meaning(tenv, env, p1)), stack[Taken(p1) - 1..])
  {
    TakenIffConnective(p1);
    PositiveIsPlain(p1);
    PositiveEffect(tenv, env, p1, [ONE] + stack);
    LeftHasOperands(tenv, env, p1, [ONE] + stack);
    BelowIs(p1, [ONE] + stack);
    assert ([ONE] + stack)[Taken(p1)..] == stack[Taken(p1) - 1..];
  }
}
