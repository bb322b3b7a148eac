/**
 * A forall directly inside another, with bounds that refer to neither. Both keep their index in the same
 * local, so that the outer one goes on from where the inner one left it.
 */
module WeaselNested {
  import opened Prelude
  import W = Wasm
  import opened Machine
  import opened Structured
  import opened Weasel
  import opened WeaselProofs
  import opened WeaselQuantifier
  import opened WeaselLoop

  /** The outer one is given by its bounds: the quantifier i stands alone, o has its place and other bounds. */
  predicate Nested(o: Quant, i: Quant) {
    && i.kind.Forall? && i.Valid() && o.Valid()
    && o == i.(lower := o.lower, upper := o.upper, body := Const(true))
  }

  function NestStatement(o: Quant, i: Quant): Prop { o.(body := i.Statement()).Statement() }

  function NestLoop(o: Quant, i: Quant): Code
    requires Nested(o, i)
  {
    QuantCode(i) + (AccumulateCode(W.And, i.tenv.Temp()) + AdvanceCode(o))
  }

  function NestCode(o: Quant, i: Quant): Code
    requires Nested(o, i)
  {
    var body := InitCode(o.Index(), o.LowerCode(), PROP_TRUE) + [W.Loop(Some(I32_TO_I32), NestLoop(o, i))];
    [W.Block(Some(VOID_TO_I32), body)]
  }

  /** That is what the outer statement compiles to. */
  lemma NestCompiles(tenv: TypeEnv, o: Quant, i: Quant)
    requires Nested(o, i) && i.tenv == tenv.Enter(i.bt)
    ensures PropGenerate(tenv, NestStatement(o, i)).Ok?
    ensures PropGenerate(tenv, NestStatement(o, i)).value.1 == NestCode(o, i)
  {
    TermAlike(tenv, o.Bare(), o.lower, 0);
    TermAlike(tenv, o.Bare(), o.upper, 0);
    InnerCompiles(i);
    var after := PropGenerate(i.tenv, i.Statement()).value.0;
    NestLoopShape(o, i, after);
  }

  lemma InnerCompiles(i: Quant)
    requires i.Valid()
    ensures PropGenerate(i.tenv, i.Statement()).Ok? && PropGenerate(i.tenv, i.Statement()).value.1 == QuantCode(i)
    ensures var after := PropGenerate(i.tenv, i.Statement()).value.0;
      after.params == i.tenv.params && after.BinderAt(0) == i.Index()
  {
    CompilesAlike(i);
    SimpleKeepsTypes(i.tenv.Enter(i.bt), i.body);
  }

  lemma NestLoopShape(o: Quant, i: Quant, after: TypeEnv)
    requires Nested(o, i) && after.params == i.tenv.params && after.BinderAt(0) == i.Index()
    ensures LoopBody(after, o.bt, W.And, QuantCode(i), o.UpperCode()) == NestLoop(o, i)
  {
    hide QuantCode, TermGenerate, PropGenerate;
  }

  // ---------------------------------------------------------------- one pass through the outer loop

  /** The outer loop, entered with the accumulator 1. */
  function NestFrom(o: Quant, i: Quant, n: nat, stack: seq<W.Value>, locals: seq<W.Value>, rt: nat): Outcome
    requires Nested(o, i)
  {
    LoopOn(i.m, n, I32_TO_I32, NestLoop(o, i), stack, [W.OfBool(true)] + stack, locals, rt)
  }

  /** When the inner quantifier has left b and the index at x, the outer one goes on from x, whatever its own was. */
  lemma NestIteration(o: Quant, i: Quant, n: nat, b: bool, enough: nat, used: nat, x: int, stack: seq<W.Value>,
      locals: seq<W.Value>, rt: nat)
    requires Nested(o, i) && i.Room(locals)
    requires LeavesWithin(i, b, enough, used, [W.OfBool(true)] + stack, locals, b, x, rt)
    requires n >= enough + |o.UpperCode()| + 13
    ensures o.Room(locals) && W.InRange(o.Size(), x)
    ensures EvalSeq(i.m, n, NestLoop(o, i), [W.OfBool(true)] + stack, locals, rt)
         == if b then Advance(o, n - used - 6, x, [W.OfBool(true)] + stack, locals)
            else Branching(n - used - 6, 1, [W.OfBool(false)] + stack, i.Scratch(locals, false, x))
  {
    hide EvalSeq, QuantCode, Advance, AdvanceCode, AccumulateCode, TermGenerate, PropGenerate, PropScoped, TermScoped;
    var temp := i.tenv.Temp();
    var after := i.Scratch(locals, b, x);
    AccumulateStep(i.m, n - used, W.And, temp, true, b, AdvanceCode(o), stack, after, rt);
    assert after[temp := W.OfBool(b)] == after;
    if b {
      ScratchIndexed(i, locals, x);
      SameRoom(o, i, after);
      AdvanceStep(o, n - used - 6, x, [W.OfBool(true)] + stack, after, rt);
      AdvanceFrom(o, i, n - used - 6, x, [W.OfBool(true)] + stack, locals);
    }
  }

  lemma SameRoom(o: Quant, i: Quant, locals: seq<W.Value>)
    requires Nested(o, i)
    ensures o.Room(locals) <==> i.Room(locals)
  {
  }

  lemma AdvanceFrom(o: Quant, i: Quant, n: nat, x: int, stack: seq<W.Value>, locals: seq<W.Value>)
    requires Nested(o, i) && i.Room(locals) && W.InRange(i.Size(), x) && n >= |o.UpperCode()| + 7
    ensures o.Room(locals) && o.Room(i.Scratch(locals, true, x))
    ensures Advance(o, n, x, stack, i.Scratch(locals, true, x)) == Advance(o, n, x, stack, locals)
  {
    ScratchKeepsRoom(i, locals, true, x);
    SameRoom(o, i, locals);
    SameRoom(o, i, i.Scratch(locals, true, x));
    ScratchTwice(o, n, x, stack, locals);
  }

  /** Where a full inner loop leaves the index, and the outer loop moves it on to. */
  function Next(i: Quant, lo: int, k: nat): (x: int)
    requires W.InRange(i.Size(), lo)
    ensures W.InRange(i.Size(), x)
  {
    W.Wrap(i.Size(), IndexAt(i, lo, k + 1) + 1)
  }

  /** Turns of one pass whose inner loop ends after its k-th index. */
  function NestCost(o: Quant, i: Quant, k: nat): nat
    requires Nested(o, i)
  {
    Used(i, k, i.IterationCost() + 2) + |o.UpperCode()| + 13
  }

  lemma NestPass(o: Quant, i: Quant, n: nat, lo: int, k: nat, hi: int, stack: seq<W.Value>, locals: seq<W.Value>,
      rt: nat)
    requires Nested(o, i) && i.Room(locals) && i.Bounds(lo, hi) && EndsAt(i, lo, hi, k) && n >= NestCost(o, i, k)
    ensures o.Room(locals)
    ensures EvalSeq(i.m, n, NestLoop(o, i), [W.OfBool(true)] + stack, locals, rt)
         == Advance(o, n - NestCost(o, i, k) + |o.UpperCode()| + 7, IndexAt(i, lo, k + 1),
              [W.OfBool(true)] + stack, locals)
  {
    hide EvalSeq, EndsAt, Advance, IndexAt, LeavesWithin, QuantCode, NestLoop, i.IterationCost, Turns;
    var used := Used(i, k, i.IterationCost() + 2);
    LeavesTrue(i, lo, k, hi, [W.OfBool(true)] + stack, locals, rt);
    NestIteration(o, i, n, true, used, used, IndexAt(i, lo, k + 1), stack, locals, rt);
  }

  lemma AdvanceOn(o: Quant, i: Quant, n: nat, x: int, hi1: int, stack: seq<W.Value>, locals: seq<W.Value>)
    requires Nested(o, i) && i.Room(locals) && UpperIs(o, hi1) && W.InRange(i.Size(), x) && n >= |o.UpperCode()| + 7
    ensures o.Room(locals)
    ensures var x', left := W.Wrap(i.Size(), x + 1), n - |o.UpperCode()| - 7;
      Advance(o, n, x, stack, locals)
      == if x' <= hi1 then Branching(left, 0, stack, i.Scratch(locals, true, x'))
         else Normal(left, stack, i.Scratch(locals, true, x'))
  {
    hide W.Wrap;
    SameRoom(o, i, locals);
  }

  /** The outer loop goes round again. */
  lemma NestAgain(o: Quant, i: Quant, n: nat, lo: int, k: nat, hi: int, hi1: int, stack: seq<W.Value>,
      locals: seq<W.Value>, rt: nat)
    requires Nested(o, i) && i.Room(locals) && i.Bounds(lo, hi) && EndsAt(i, lo, hi, k) && UpperIs(o, hi1)
    requires n >= NestCost(o, i, k) && Next(i, lo, k) <= hi1
    ensures i.Index() < |locals| && i.tenv.Temp() < |locals| && i.Room(i.Scratch(locals, true, Next(i, lo, k)))
    ensures NestFrom(o, i, n, stack, locals, rt)
         == NestFrom(o, i, n - NestCost(o, i, k), stack, i.Scratch(locals, true, Next(i, lo, k)), rt)
  {
    hide EvalSeq, EndsAt, IndexAt, NestLoop, NestCost, W.Wrap, Advance, i.Scratch, PropScoped, TermScoped;
    NestPass(o, i, n, lo, k, hi, stack, locals, rt);
    AdvanceOn(o, i, n - NestCost(o, i, k) + |o.UpperCode()| + 7, IndexAt(i, lo, k + 1), hi1,
      [W.OfBool(true)] + stack, locals);
    ScratchIndexed(i, locals, Next(i, lo, k));
    KeepTop(W.OfBool(true), stack);
  }

  /** Or it ends, with 1. */
  lemma NestLast(o: Quant, i: Quant, n: nat, lo: int, k: nat, hi: int, hi1: int, stack: seq<W.Value>,
      locals: seq<W.Value>, rt: nat)
    requires Nested(o, i) && i.Room(locals) && i.Bounds(lo, hi) && EndsAt(i, lo, hi, k) && UpperIs(o, hi1)
    requires n > NestCost(o, i, k) && Next(i, lo, k) > hi1
    ensures NestFrom(o, i, n, stack, locals, rt)
         == Normal(n - NestCost(o, i, k) - 1, [W.OfBool(true)] + stack, i.Scratch(locals, true, Next(i, lo, k)))
  {
    hide EvalSeq, EndsAt, IndexAt, NestLoop, NestCost, W.Wrap, Advance, i.Scratch, PropScoped, TermScoped;
    NestPass(o, i, n, lo, k, hi, stack, locals, rt);
    AdvanceOn(o, i, n - NestCost(o, i, k) + |o.UpperCode()| + 7, IndexAt(i, lo, k + 1), hi1,
      [W.OfBool(true)] + stack, locals);
    KeepTop(W.OfBool(true), stack);
  }

  lemma NestNoTurns(o: Quant, i: Quant, stack: seq<W.Value>, locals: seq<W.Value>, rt: nat)
    requires Nested(o, i)
    ensures NestFrom(o, i, 0, stack, locals, rt) == Stop(OutOfFuel)
  {
    hide NestLoop;
    NestLoopNotEmpty(o, i);
  }

  lemma NestLoopNotEmpty(o: Quant, i: Quant)
    requires Nested(o, i)
    ensures NestLoop(o, i) != []
  {
  }

  lemma NestMonotone(o: Quant, i: Quant, n: nat, d: nat, stack: seq<W.Value>, locals: seq<W.Value>, rt: nat)
    requires Nested(o, i) && NestFrom(o, i, n + d, stack, locals, rt) == Stop(OutOfFuel)
    ensures NestFrom(o, i, n, stack, locals, rt) == Stop(OutOfFuel)
  {
    hide LoopOn;
    if NestFrom(o, i, n, stack, locals, rt) != Stop(OutOfFuel) {
      LoopMonotone(i.m, n, d, I32_TO_I32, NestLoop(o, i), stack, [W.OfBool(true)] + stack, locals, rt);
    }
  }

  /** The inner loop ends, and the outer one goes round again. */
  ghost predicate GoesRound(o: Quant, i: Quant, lo: int, k: nat, hi: int, hi1: int)
    requires Nested(o, i)
  {
    i.Bounds(lo, hi) && EndsAt(i, lo, hi, k) && UpperIs(o, hi1) && Next(i, lo, k) <= hi1
  }

  function LocalsNext(i: Quant, lo: int, k: nat, locals: seq<W.Value>): seq<W.Value>
    requires i.Valid() && i.Room(locals)
  {
    if W.InRange(i.Size(), lo) then i.Scratch(locals, true, Next(i, lo, k)) else locals
  }

  lemma NestRound(o: Quant, i: Quant, n: nat, lo: int, k: nat, hi: int, hi1: int, stack: seq<W.Value>,
      locals: seq<W.Value>, rt: nat)
    requires Nested(o, i) && i.Room(locals) && GoesRound(o, i, lo, k, hi, hi1) && n >= NestCost(o, i, k)
    ensures i.Room(LocalsNext(i, lo, k, locals)) && NestCost(o, i, k) > 0
    ensures NestFrom(o, i, n, stack, locals, rt)
         == NestFrom(o, i, n - NestCost(o, i, k), stack, LocalsNext(i, lo, k, locals), rt)
  {
    SomeCost(o, i, k);
    hide EvalSeq, EndsAt, NestFrom, Next, NestCost;
    NestAgain(o, i, n, lo, k, hi, hi1, stack, locals, rt);
  }

  /** Too few turns for that. */
  lemma NestCutShort(o: Quant, i: Quant, n: nat, lo: int, k: nat, hi: int, hi1: int, stack: seq<W.Value>,
      locals: seq<W.Value>, rt: nat)
    requires Nested(o, i) && i.Room(locals) && GoesRound(o, i, lo, k, hi, hi1) && n < NestCost(o, i, k)
    ensures NestFrom(o, i, n, stack, locals, rt) == Stop(OutOfFuel)
  {
    assert i.Valid();
    hide NestFrom, NestCost, GoesRound, LocalsNext, i.Room, Nested, i.Valid;
    var c := NestCost(o, i, k);
    NestRound(o, i, c, lo, k, hi, hi1, stack, locals, rt);
    NestNoTurns(o, i, stack, LocalsNext(i, lo, k, locals), rt);
    NestMonotone(o, i, n, c - n, stack, locals, rt);
  }

  /** Going round again once is going round for ever: the inner loop always starts and ends alike. */
  lemma {:induction false} NestNeverEnds(o: Quant, i: Quant, n: nat, lo: int, k: nat, hi: int, hi1: int,
      stack: seq<W.Value>, locals: seq<W.Value>, rt: nat)
    requires Nested(o, i) && i.Room(locals) && GoesRound(o, i, lo, k, hi, hi1)
    ensures NestFrom(o, i, n, stack, locals, rt) == Stop(OutOfFuel)
    decreases n
  {
    assert i.Valid();
    hide NestFrom, NestCost, GoesRound, LocalsNext, i.Room, Nested, i.Valid;
    var c := NestCost(o, i, k);
    if n < c {
      NestCutShort(o, i, n, lo, k, hi, hi1, stack, locals, rt);
    } else {
      NestRound(o, i, n, lo, k, hi, hi1, stack, locals, rt);
      NestNeverEnds(o, i, n - c, lo, k, hi, hi1, stack, LocalsNext(i, lo, k, locals), rt);
    }
  }

  lemma SomeCost(o: Quant, i: Quant, k: nat)
    requires Nested(o, i)
    ensures NestCost(o, i, k) > 0
  {
  }

  /** An inner quantifier that is left with 0, traps or never ends does so at once, in the first pass. */
  lemma NestStops(o: Quant, i: Quant, n: nat, lo: int, k: nat, hi: int, stack: seq<W.Value>, locals: seq<W.Value>,
      rt: nat)
    requires Nested(o, i) && i.Room(locals) && i.Bounds(lo, hi) && StopsAt(i, lo, hi, k) && Tried(i, lo, k).Ok?
    requires n >= NestCost(o, i, k)
    ensures Used(i, k, i.TestCost()) + 6 <= n
    ensures NestFrom(o, i, n, stack, locals, rt)
         == Branching(n - Used(i, k, i.TestCost()) - 6, 0, [W.OfBool(false)] + stack,
              i.Scratch(locals, false, IndexAt(i, lo, k)))
  {
    LeavesFalse(i, lo, k, hi, [W.OfBool(true)] + stack, locals, rt);
    hide EvalSeq, StopsAt, IndexAt, LeavesWithin, Tried, NestLoop, QuantCode;
    NestIteration(o, i, n, false, Used(i, k, i.IterationCost()), Used(i, k, i.TestCost()), IndexAt(i, lo, k),
      stack, locals, rt);
  }

  lemma NestTrapsAt(o: Quant, i: Quant, n: nat, trap: W.Trap, enough: nat, stack: seq<W.Value>, locals: seq<W.Value>,
      rt: nat)
    requires Nested(o, i) && TrapsWithin(i, trap, enough, [W.OfBool(true)] + stack, locals, rt) && n >= enough
    ensures NestFrom(o, i, n, stack, locals, rt) == Stop(TrapRun(trap))
  {
    hide EvalSeq, QuantCode, AccumulateCode, AdvanceCode;
    var rest := AccumulateCode(W.And, i.tenv.Temp()) + AdvanceCode(o);
    assert EvalSeq(i.m, n, QuantCode(i) + rest, [W.OfBool(true)] + stack, locals, rt) == Stop(TrapRun(trap));
  }

  lemma NestHangs(o: Quant, i: Quant, n: nat, stack: seq<W.Value>, locals: seq<W.Value>, rt: nat)
    requires Nested(o, i) && Diverges(i, [W.OfBool(true)] + stack, locals, rt)
    ensures NestFrom(o, i, n, stack, locals, rt) == Stop(OutOfFuel)
  {
    hide EvalSeq, QuantCode, AccumulateCode, AdvanceCode;
    var rest := AccumulateCode(W.And, i.tenv.Temp()) + AdvanceCode(o);
    assert EvalSeq(i.m, n, QuantCode(i) + rest, [W.OfBool(true)] + stack, locals, rt) == Stop(OutOfFuel);
  }

  // ---------------------------------------------------------------- verdicts

  /** The code of both is the outer loop from its lower bound, with its label and the block's around it. */
  lemma NestRuns(o: Quant, i: Quant, n: nat, lo1: int, hi1: int, rest: Code, stack: seq<W.Value>, locals: seq<W.Value>,
      rt: nat)
    requires Nested(o, i) && i.Room(locals) && o.Bounds(lo1, hi1) && n >= StartCost(o)
    ensures i.Room(Entered(i, lo1, locals))
    ensures EvalSeq(i.m, n, NestCode(o, i) + rest, stack, locals, rt)
         == AfterLoop(o, NestFrom(o, i, n - StartCost(o), stack, Entered(i, lo1, locals), rt), rest, stack, rt)
  {
    hide EvalSeq, NestLoop, LoopOn, AfterLoop;
    SameRoom(o, i, locals);
    EnteredFacts(i, lo1, locals);
    BlockEntersLoop(o, n, lo1, NestLoop(o, i), rest, stack, locals, rt);
  }

  /** Given enough turns, the code pushes b and changes only the temporary and the index. */
  ghost predicate NestLeaves(o: Quant, i: Quant, b: bool, stack: seq<W.Value>, locals: seq<W.Value>, rt: nat)
    requires Nested(o, i) && i.Room(locals)
  {
    exists enough: nat, used: nat, x: int :: NestLeavesWithin(o, i, b, enough, used, x, stack, locals, rt)
  }

  ghost predicate NestLeavesWithin(o: Quant, i: Quant, b: bool, enough: nat, used: nat, x: int, stack: seq<W.Value>,
      locals: seq<W.Value>, rt: nat)
    requires Nested(o, i) && i.Room(locals)
  {
    W.InRange(i.Size(), x) && used <= enough && forall n: nat, rest: Code :: n >= enough ==>
      EvalSeq(i.m, n, NestCode(o, i) + rest, stack, locals, rt)
      == EvalSeq(i.m, n - used, rest, [W.OfBool(b)] + stack, i.Scratch(locals, b, x), rt)
  }

  ghost predicate NestTraps(o: Quant, i: Quant, trap: W.Trap, stack: seq<W.Value>, locals: seq<W.Value>, rt: nat)
    requires Nested(o, i)
  {
    exists enough: nat :: NestTrapsWithin(o, i, trap, enough, stack, locals, rt)
  }

  ghost predicate NestTrapsWithin(o: Quant, i: Quant, trap: W.Trap, enough: nat, stack: seq<W.Value>,
      locals: seq<W.Value>, rt: nat)
    requires Nested(o, i)
  {
    forall n: nat, rest: Code :: n >= enough ==>
      EvalSeq(i.m, n, NestCode(o, i) + rest, stack, locals, rt) == Stop(TrapRun(trap))
  }

  /** No budget is enough. */
  ghost predicate NestDiverges(o: Quant, i: Quant, stack: seq<W.Value>, locals: seq<W.Value>, rt: nat)
    requires Nested(o, i)
  {
    forall n: nat, rest: Code :: EvalSeq(i.m, n, NestCode(o, i) + rest, stack, locals, rt) == Stop(OutOfFuel)
  }

  lemma NestTrueAt(o: Quant, i: Quant, n: nat, used: nat, lo1: int, hi1: int, lo: int, k: nat, hi: int, rest: Code,
      stack: seq<W.Value>, locals: seq<W.Value>, rt: nat)
    requires Nested(o, i) && i.Room(locals) && o.Bounds(lo1, hi1) && i.Bounds(lo, hi) && EndsAt(i, lo, hi, k)
    requires Next(i, lo, k) > hi1 && n >= used == StartCost(o) + NestCost(o, i, k) + 2
    ensures EvalSeq(i.m, n, NestCode(o, i) + rest, stack, locals, rt)
         == EvalSeq(i.m, n - used, rest, [W.OfBool(true)] + stack, i.Scratch(locals, true, Next(i, lo, k)), rt)
  {
    hide EvalSeq, EndsAt, NestFrom, NestCost, NestCode, StartCost, Next, i.Scratch, Entered, PropScoped, TermScoped;
    EnteredFacts(i, lo1, locals);
    NestRuns(o, i, n, lo1, hi1, rest, stack, locals, rt);
    NestLast(o, i, n - StartCost(o), lo, k, hi, hi1, stack, Entered(i, lo1, locals), rt);
    KeepTop(W.OfBool(true), stack);
  }

  lemma NestLeavesTrue(o: Quant, i: Quant, lo1: int, hi1: int, lo: int, k: nat, hi: int, stack: seq<W.Value>,
      locals: seq<W.Value>, rt: nat)
    requires Nested(o, i) && i.Room(locals) && o.Bounds(lo1, hi1) && i.Bounds(lo, hi) && EndsAt(i, lo, hi, k)
    requires Next(i, lo, k) > hi1
    ensures NestLeaves(o, i, true, stack, locals, rt)
  {
    var x, used := Next(i, lo, k), StartCost(o) + NestCost(o, i, k) + 2;
    hide EvalSeq, EndsAt, NestCost, NestCode, StartCost, Next, i.Scratch, o.Bounds, i.Bounds;
    forall n: nat, rest: Code | n >= used
      ensures EvalSeq(i.m, n, NestCode(o, i) + rest, stack, locals, rt)
           == EvalSeq(i.m, n - used, rest, [W.OfBool(true)] + stack, i.Scratch(locals, true, x), rt)
    {
      NestTrueAt(o, i, n, used, lo1, hi1, lo, k, hi, rest, stack, locals, rt);
    }
    assert NestLeavesWithin(o, i, true, used, used, x, stack, locals, rt);
  }

  lemma NestFalseAt(o: Quant, i: Quant, n: nat, used: nat, lo1: int, hi1: int, lo: int, k: nat, hi: int, rest: Code,
      stack: seq<W.Value>, locals: seq<W.Value>, rt: nat)
    requires Nested(o, i) && i.Room(locals) && o.Bounds(lo1, hi1) && i.Bounds(lo, hi)
    requires StopsAt(i, lo, hi, k) && Tried(i, lo, k).Ok?
    requires n >= StartCost(o) + NestCost(o, i, k) && used == StartCost(o) + Used(i, k, i.TestCost()) + 6 <= n
    ensures EvalSeq(i.m, n, NestCode(o, i) + rest, stack, locals, rt)
         == EvalSeq(i.m, n - used, rest, [W.OfBool(false)] + stack, i.Scratch(locals, false, IndexAt(i, lo, k)), rt)
  {
    hide EvalSeq, StopsAt, NestFrom, NestCost, NestCode, StartCost, IndexAt, Tried, Used, i.Scratch, Entered;
    EnteredFacts(i, lo1, locals);
    NestRuns(o, i, n, lo1, hi1, rest, stack, locals, rt);
    NestStops(o, i, n - StartCost(o), lo, k, hi, stack, Entered(i, lo1, locals), rt);
    KeepTop(W.OfBool(false), stack);
  }

  lemma NestLeavesFalse(o: Quant, i: Quant, lo1: int, hi1: int, lo: int, k: nat, hi: int, stack: seq<W.Value>,
      locals: seq<W.Value>, rt: nat)
    requires Nested(o, i) && i.Room(locals) && o.Bounds(lo1, hi1) && i.Bounds(lo, hi)
    requires StopsAt(i, lo, hi, k) && Tried(i, lo, k).Ok?
    ensures NestLeaves(o, i, false, stack, locals, rt)
  {
    var x := IndexAt(i, lo, k);
    var enough, used := StartCost(o) + NestCost(o, i, k), StartCost(o) + Used(i, k, i.TestCost()) + 6;
    assert used <= enough;
    hide EvalSeq, StopsAt, NestCost, NestCode, StartCost, IndexAt, Tried, Used, i.Scratch, o.Bounds, i.Bounds;
    forall n: nat, rest: Code | n >= enough
      ensures EvalSeq(i.m, n, NestCode(o, i) + rest, stack, locals, rt)
           == EvalSeq(i.m, n - used, rest, [W.OfBool(false)] + stack, i.Scratch(locals, false, x), rt)
    {
      NestFalseAt(o, i, n, used, lo1, hi1, lo, k, hi, rest, stack, locals, rt);
    }
    assert NestLeavesWithin(o, i, false, enough, used, x, stack, locals, rt);
  }

  lemma NestTrapsFrom(o: Quant, i: Quant, trap: W.Trap, within: nat, lo1: int, hi1: int, stack: seq<W.Value>,
      locals: seq<W.Value>, rt: nat)
    requires Nested(o, i) && i.Room(locals) && o.Bounds(lo1, hi1)
    requires TrapsWithin(i, trap, within, [W.OfBool(true)] + stack, Entered(i, lo1, locals), rt)
    ensures NestTraps(o, i, trap, stack, locals, rt)
  {
    hide EvalSeq, NestFrom, NestCode, StartCost, TrapsWithin, Entered, PropScoped, TermScoped;
    var enough := StartCost(o) + within;
    forall n: nat, rest: Code | n >= enough
      ensures EvalSeq(i.m, n, NestCode(o, i) + rest, stack, locals, rt) == Stop(TrapRun(trap))
    {
      NestRuns(o, i, n, lo1, hi1, rest, stack, locals, rt);
      NestTrapsAt(o, i, n - StartCost(o), trap, within, stack, Entered(i, lo1, locals), rt);
    }
    assert NestTrapsWithin(o, i, trap, enough, stack, locals, rt);
  }

  lemma NestTrapsInBody(o: Quant, i: Quant, lo1: int, hi1: int, lo: int, k: nat, hi: int, stack: seq<W.Value>,
      locals: seq<W.Value>, rt: nat)
    requires Nested(o, i) && i.Room(locals) && o.Bounds(lo1, hi1) && i.Bounds(lo, hi)
    requires StopsAt(i, lo, hi, k) && Tried(i, lo, k).Trapped?
    ensures NestTraps(o, i, Tried(i, lo, k).trap, stack, locals, rt)
  {
    var trap, after := Tried(i, lo, k).trap, Entered(i, lo1, locals);
    EnteredFacts(i, lo1, locals);
    hide StopsAt, Tried, TrapsWithin, Entered, NestTraps;
    TrapsInBody(i, lo, k, hi, [W.OfBool(true)] + stack, after, rt);
    var within: nat :| TrapsWithin(i, trap, within, [W.OfBool(true)] + stack, after, rt);
    NestTrapsFrom(o, i, trap, within, lo1, hi1, stack, locals, rt);
  }

  /** Where the outer loop runs out of turns whatever it is given, so does the code. */
  lemma NestDivergesFrom(o: Quant, i: Quant, lo1: int, hi1: int, stack: seq<W.Value>, locals: seq<W.Value>, rt: nat)
    requires Nested(o, i) && i.Room(locals) && o.Bounds(lo1, hi1)
    requires forall n: nat :: NestFrom(o, i, n, stack, Entered(i, lo1, locals), rt) == Stop(OutOfFuel)
    ensures NestDiverges(o, i, stack, locals, rt)
  {
    hide EvalSeq, NestFrom, NestCode, StartCost, Entered;
    forall n: nat, rest: Code
      ensures EvalSeq(i.m, n, NestCode(o, i) + rest, stack, locals, rt) == Stop(OutOfFuel)
    {
      NestRuns(o, i, n + StartCost(o), lo1, hi1, rest, stack, locals, rt);
      if EvalSeq(i.m, n, NestCode(o, i) + rest, stack, locals, rt) != Stop(OutOfFuel) {
        SeqMonotone(i.m, n, StartCost(o), NestCode(o, i) + rest, stack, locals, rt);
      }
    }
  }

  /** The first index past the inner range, or past its lower bound when it is empty. */
  function Past(i: Quant, lo: int, hi: int): int {
    if hi < lo < MaxOf(i.Size()) then lo + 1 else hi + 1
  }

  lemma NextIsPast(i: Quant, lo: int, hi: int)
    requires W.InRange(i.Size(), lo) && W.InRange(i.Size(), hi) && hi < MaxOf(i.Size())
    ensures Next(i, lo, LastIndex(i, lo, hi)) == W.Wrap(i.Size(), Past(i, lo, hi) + 1)
  {
    hide IndexAt, W.Wrap;
    IndexIs(i, lo, LastIndex(i, lo, hi) + 1);
  }

  /**
   * For all bounds: an inner quantifier that is left with 0, traps or never ends decides alone. One that runs
   * through leaves the index one past its range; if the index after that is not past the outer bound, the
   * code never ends, else it leaves 1. The outer lower bound has no say.
   */
  lemma NestVerdict(o: Quant, i: Quant, lo1: int, hi1: int, lo: int, hi: int, stack: seq<W.Value>,
      locals: seq<W.Value>, rt: nat) returns (k: nat)
    requires Nested(o, i) && i.Room(locals) && o.Bounds(lo1, hi1) && i.Bounds(lo, hi)
    ensures !Clear(i, lo, hi) ==> StopsAt(i, lo, hi, k)
    ensures !Clear(i, lo, hi) && Tried(i, lo, k).Ok? ==> NestLeaves(o, i, false, stack, locals, rt)
    ensures !Clear(i, lo, hi) && Tried(i, lo, k).Trapped? ==> NestTraps(o, i, Tried(i, lo, k).trap, stack, locals, rt)
    ensures Clear(i, lo, hi) && (hi == MaxOf(i.Size()) || W.Wrap(i.Size(), Past(i, lo, hi) + 1) <= hi1) ==>
      NestDiverges(o, i, stack, locals, rt)
    ensures Clear(i, lo, hi) && hi < MaxOf(i.Size()) && W.Wrap(i.Size(), Past(i, lo, hi) + 1) > hi1 ==>
      NestLeaves(o, i, true, stack, locals, rt)
  {
    assert i.Valid();
    hide i.Valid, Nested, Clear, Tried, NestLeaves, NestTraps, NestDiverges, StopsAt, EndsAt, Diverges, W.Wrap, Entered;
    k := 0;
    if !Clear(i, lo, hi) {
      k := FirstStop(i, lo, hi);
      if Tried(i, lo, k).Ok? {
        NestLeavesFalse(o, i, lo1, hi1, lo, k, hi, stack, locals, rt);
      } else {
        NestTrapsInBody(o, i, lo1, hi1, lo, k, hi, stack, locals, rt);
      }
    } else {
      NestRunsThrough(o, i, lo1, hi1, lo, hi, stack, locals, rt);
    }
  }

  lemma NestRunsThrough(o: Quant, i: Quant, lo1: int, hi1: int, lo: int, hi: int, stack: seq<W.Value>,
      locals: seq<W.Value>, rt: nat)
    requires Nested(o, i) && i.Room(locals) && o.Bounds(lo1, hi1) && i.Bounds(lo, hi) && Clear(i, lo, hi)
    ensures hi == MaxOf(i.Size()) || W.Wrap(i.Size(), Past(i, lo, hi) + 1) <= hi1 ==>
      NestDiverges(o, i, stack, locals, rt)
    ensures hi < MaxOf(i.Size()) && W.Wrap(i.Size(), Past(i, lo, hi) + 1) > hi1 ==>
      NestLeaves(o, i, true, stack, locals, rt)
  {
    var after, last := Entered(i, lo1, locals), LastIndex(i, lo, hi);
    EnteredFacts(i, lo1, locals);
    hide Clear, NestLeaves, NestDiverges, EndsAt, Diverges, W.Wrap, NestFrom, i.Room, Entered, Next;
    if hi == MaxOf(i.Size()) {
      var _ := Verdict(i, lo, hi, [W.OfBool(true)] + stack, after, rt);
      forall n: nat ensures NestFrom(o, i, n, stack, after, rt) == Stop(OutOfFuel) {
        NestHangs(o, i, n, stack, after, rt);
      }
      NestDivergesFrom(o, i, lo1, hi1, stack, locals, rt);
    } else {
      ClearEnds(i, lo, hi);
      NextIsPast(i, lo, hi);
      if Next(i, lo, last) > hi1 {
        NestLeavesTrue(o, i, lo1, hi1, lo, last, hi, stack, locals, rt);
      } else {
        forall n: nat ensures NestFrom(o, i, n, stack, after, rt) == Stop(OutOfFuel) {
          NestNeverEnds(o, i, n, lo, last, hi, hi1, stack, after, rt);
        }
        NestDivergesFrom(o, i, lo1, hi1, stack, locals, rt);
      }
    }
  }

  /** The outcome of the code by itself. */
  function NestAlone(o: Quant, i: Quant, n: nat, stack: seq<W.Value>, locals: seq<W.Value>, rt: nat): Outcome
    requires Nested(o, i)
  {
    EvalSeq(i.m, n, NestCode(o, i) + [], stack, locals, rt)
  }

  lemma NestLeavesAt(o: Quant, i: Quant, b: bool, n: nat, enough: nat, used: nat, x: int, stack: seq<W.Value>,
      locals: seq<W.Value>, rt: nat)
    requires Nested(o, i) && i.Room(locals) && NestLeavesWithin(o, i, b, enough, used, x, stack, locals, rt)
    requires n >= enough
    ensures NestAlone(o, i, n, stack, locals, rt) == Normal(n - used, [W.OfBool(b)] + stack, i.Scratch(locals, b, x))
  {
    hide EvalSeq, NestCode;
    EmptySeq(i.m, n - used, [W.OfBool(b)] + stack, i.Scratch(locals, b, x), rt);
  }

  lemma NestDivergesAt(o: Quant, i: Quant, n: nat, stack: seq<W.Value>, locals: seq<W.Value>, rt: nat)
    requires Nested(o, i) && NestDiverges(o, i, stack, locals, rt)
    ensures NestAlone(o, i, n, stack, locals, rt) == Stop(OutOfFuel)
  {
  }

  lemma NestOneVerdict(o: Quant, i: Quant, stack: seq<W.Value>, locals: seq<W.Value>, rt: nat)
    requires Nested(o, i) && i.Room(locals)
    ensures !(NestLeaves(o, i, true, stack, locals, rt) && NestLeaves(o, i, false, stack, locals, rt))
    ensures forall b: bool :: !(NestLeaves(o, i, b, stack, locals, rt) && NestDiverges(o, i, stack, locals, rt))
  {
    hide NestAlone, NestLeavesWithin, NestDiverges, Nested, i.Room;
    assert ([W.OfBool(true)] + stack)[0] != ([W.OfBool(false)] + stack)[0];
    forall b: bool | NestLeaves(o, i, b, stack, locals, rt)
      ensures !NestDiverges(o, i, stack, locals, rt)
      ensures b ==> !NestLeaves(o, i, false, stack, locals, rt)
    {
      var e: nat, used: nat, x: int :| NestLeavesWithin(o, i, b, e, used, x, stack, locals, rt);
      NestLeavesAt(o, i, b, e, e, used, x, stack, locals, rt);
      if NestDiverges(o, i, stack, locals, rt) { NestDivergesAt(o, i, e, stack, locals, rt); }
      if b && NestLeaves(o, i, false, stack, locals, rt) {
        var e': nat, used': nat, x': int :| NestLeavesWithin(o, i, false, e', used', x', stack, locals, rt);
        NestLeavesAt(o, i, b, e + e', e, used, x, stack, locals, rt);
        NestLeavesAt(o, i, false, e + e', e', used', x', stack, locals, rt);
      }
    }
  }

  /** The code by itself ends. */
  ghost predicate NestEnds(o: Quant, i: Quant, stack: seq<W.Value>, locals: seq<W.Value>, rt: nat)
    requires Nested(o, i)
  {
    exists n: nat :: EvalSeq(i.m, n, NestCode(o, i), stack, locals, rt) != Stop(OutOfFuel)
  }

  /**
   * The code ends if and only if something stops the inner quantifier, or that ends below the type's maximum
   * and the second index past it is past the outer bound. So two foralls over 0 to 3 and 0 to 1 whose body
   * always holds run for ever.
   */
  lemma NestEndsExactly(o: Quant, i: Quant, lo1: int, hi1: int, lo: int, hi: int, stack: seq<W.Value>,
      locals: seq<W.Value>, rt: nat)
    requires Nested(o, i) && i.Room(locals) && o.Bounds(lo1, hi1) && i.Bounds(lo, hi)
    ensures NestEnds(o, i, stack, locals, rt)
      <==> !Clear(i, lo, hi) || (hi < MaxOf(i.Size()) && W.Wrap(i.Size(), Past(i, lo, hi) + 1) > hi1)
  {
    hide EvalSeq, NestCode, Clear, W.Wrap, Tried, StopsAt, i.Scratch;
    var k := NestVerdict(o, i, lo1, hi1, lo, hi, stack, locals, rt);
    assert NestCode(o, i) + [] == NestCode(o, i);
    if NestLeaves(o, i, true, stack, locals, rt) {
      LeavingEnds(o, i, true, stack, locals, rt);
    } else if NestLeaves(o, i, false, stack, locals, rt) {
      LeavingEnds(o, i, false, stack, locals, rt);
    } else if !Clear(i, lo, hi) {
      var enough: nat :| NestTrapsWithin(o, i, Tried(i, lo, k).trap, enough, stack, locals, rt);
      assert EvalSeq(i.m, enough, NestCode(o, i) + [], stack, locals, rt) != Stop(OutOfFuel);
    }
  }

  lemma LeavingEnds(o: Quant, i: Quant, b: bool, stack: seq<W.Value>, locals: seq<W.Value>, rt: nat)
    requires Nested(o, i) && i.Room(locals) && NestLeaves(o, i, b, stack, locals, rt)
    ensures NestEnds(o, i, stack, locals, rt)
  {
    var enough: nat, used: nat, x: int :| NestLeavesWithin(o, i, b, enough, used, x, stack, locals, rt);
    hide EvalSeq, NestCode;
    NestLeavesAt(o, i, b, enough, enough, used, x, stack, locals, rt);
    assert NestCode(o, i) + [] == NestCode(o, i);
    assert EvalSeq(i.m, enough, NestCode(o, i), stack, locals, rt).Normal?;
  }

  /** What the two say together, of a body that does not refer to the outer variable. */
  ghost predicate NestMeans(i: Quant, lo1: int, hi1: int, lo: int, hi: int)
    requires i.Valid()
  {
    lo1 <= hi1 ==> forall x :: lo <= x <= hi && W.InRange(i.Size(), x) ==> i.Body(x) == W.Ok(true)
  }

  /**
   * For all bounds and every body that never traps, the code leaves what the two say if and only if, where
   * the body holds at every index the inner loop tries, that is true and the code ends; and where it does
   * not, that is false.
   */
  lemma NestRightExactly(o: Quant, i: Quant, lo1: int, hi1: int, lo: int, hi: int, stack: seq<W.Value>,
      locals: seq<W.Value>, rt: nat)
    requires Nested(o, i) && i.Room(locals) && o.Bounds(lo1, hi1) && i.Bounds(lo, hi) && Total(i)
    ensures NestLeaves(o, i, NestMeans(i, lo1, hi1, lo, hi), stack, locals, rt)
      <==> if Clear(i, lo, hi) then
             NestMeans(i, lo1, hi1, lo, hi) && hi < MaxOf(i.Size()) && W.Wrap(i.Size(), Past(i, lo, hi) + 1) > hi1
           else !NestMeans(i, lo1, hi1, lo, hi)
  {
    var k := NestVerdict(o, i, lo1, hi1, lo, hi, stack, locals, rt);
    NestOneVerdict(o, i, stack, locals, rt);
    assert Tried(i, lo, k).Ok?;
    hide NestLeaves, NestDiverges, NestMeans, Clear, W.Wrap, Nested, i.Room, Tried;
    if NestMeans(i, lo1, hi1, lo, hi) {
      assert NestLeaves(o, i, NestMeans(i, lo1, hi1, lo, hi), stack, locals, rt)
          == NestLeaves(o, i, true, stack, locals, rt);
    } else {
      assert NestLeaves(o, i, NestMeans(i, lo1, hi1, lo, hi), stack, locals, rt)
          == NestLeaves(o, i, false, stack, locals, rt);
    }
  }
}
