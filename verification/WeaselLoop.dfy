/** The runs of the code generated for a quantifier: which index they stop at and what they leave. */
module WeaselLoop {
  import opened Prelude
  import W = Wasm
  import opened Machine
  import opened Structured
  import opened Refinement
  import opened Weasel
  import opened WeaselProofs
  import opened WeaselQuantifier

  /** The loop, entered with an accumulator. */
  function LoopFrom(q: Quant, acc: bool, n: nat, stack: seq<W.Value>, locals: seq<W.Value>, rt: nat): Outcome
    requires q.Valid()
  {
    LoopOn(q.m, n, I32_TO_I32, q.LoopCode(), stack, [W.OfBool(acc)] + stack, locals, rt)
  }

  ghost predicate Indexed(q: Quant, x: int, locals: seq<W.Value>) {
    q.Valid() && q.Room(locals) && W.InRange(q.Size(), x) && locals[q.Index()] == W.Make(q.Size(), x)
  }

  /** The k-th index tried: from the lower bound up, and round past the type's maximum. */
  function IndexAt(q: Quant, lo: int, k: nat): (x: int)
    requires W.InRange(q.Size(), lo)
    ensures W.InRange(q.Size(), x)
  {
    if k == 0 then lo else W.Wrap(q.Size(), IndexAt(q, lo, k - 1) + 1)
  }

  lemma NextIndex(q: Quant, lo: int, k: nat)
    requires W.InRange(q.Size(), lo)
    ensures W.Wrap(q.Size(), IndexAt(q, lo, k) + 1) == IndexAt(q, lo, k + 1)
  {
  }

  lemma WrapNext(nn: W.Size, x: int)
    requires W.InRange(nn, x)
    ensures W.Wrap(nn, x + 1) == if x == MaxOf(nn) then -(W.Modulus(nn) / 2) else x + 1
  {
  }

  lemma {:induction false} IndexIs(q: Quant, lo: int, k: nat)
    requires W.InRange(q.Size(), lo) && lo + k <= MaxOf(q.Size()) + W.Modulus(q.Size())
    ensures IndexAt(q, lo, k) == if lo + k <= MaxOf(q.Size()) then lo + k else lo + k - W.Modulus(q.Size())
  {
    if k > 0 {
      hide W.Wrap, q.Size;
      IndexIs(q, lo, k - 1);
      WrapNext(q.Size(), IndexAt(q, lo, k - 1));
    }
  }

  /** The accumulator before it: past the first index what was accumulated is true. */
  function AccAt(q: Quant, k: nat): bool { if k == 0 then q.Neutral() else true }

  /** What is accumulated there. */
  function Tried(q: Quant, lo: int, k: nat): W.Result<bool>
    requires q.Valid() && W.InRange(q.Size(), lo)
  {
    q.Joined(AccAt(q, k), IndexAt(q, lo, k))
  }

  /** The index after the k-th is not past the upper bound. */
  predicate Again(q: Quant, lo: int, hi: int, k: nat)
    requires W.InRange(q.Size(), lo)
  {
    IndexAt(q, lo, k + 1) <= hi
  }

  /** The loop gets to its k-th index: nothing before stops it, and no next index is past the upper bound. */
  ghost predicate Reaches(q: Quant, lo: int, hi: int, k: nat)
    requires q.Valid() && W.InRange(q.Size(), lo)
  {
    forall i: nat :: i < k ==> Tried(q, lo, i) == W.Ok(true) && Again(q, lo, hi, i)
  }

  ghost predicate LowerIs(q: Quant, lo: int)
    requires q.Valid()
  {
    TermGenerate(q.Bare(), q.lower).Ok? && W.InRange(q.Size(), lo)
    && TermValue(q.Bare(), q.env, q.lower) == W.Ok(W.Make(q.Size(), lo))
  }

  ghost predicate UpperIs(q: Quant, hi: int)
    requires q.Valid()
  {
    TermGenerate(q.Bare(), q.upper).Ok? && W.InRange(q.Size(), hi)
    && TermValue(q.Bare(), q.env, q.upper) == W.Ok(W.Make(q.Size(), hi))
  }

  /** An iteration that leaves 1 and goes round again. */
  lemma LoopAgain(q: Quant, acc: bool, n: nat, x: int, hi: int, stack: seq<W.Value>, locals: seq<W.Value>, rt: nat)
    requires Indexed(q, x, locals) && UpperIs(q, hi) && q.Joined(acc, x) == W.Ok(true)
    requires n >= q.IterationCost() && W.Wrap(q.Size(), x + 1) <= hi
    ensures var x' := W.Wrap(q.Size(), x + 1);
      LoopFrom(q, acc, n, stack, locals, rt)
      == LoopFrom(q, true, n - q.IterationCost(), stack, q.Scratch(locals, true, x'), rt)
  {
    hide EvalSeq, W.Wrap, q.Joined;
    Iteration(q, acc, n, x, stack, locals, rt);
    assert Keep([W.OfBool(true)] + stack, 1) + stack == [W.OfBool(true)] + stack;
  }

  /** Turns spent on k whole iterations. */
  function Turns(q: Quant, k: nat): nat requires q.Valid() {
    if k == 0 then 0 else q.IterationCost() + Turns(q, k - 1)
  }

  /** The locals at the k-th index, those at the first one being given. */
  function LocalsAt(q: Quant, lo: int, k: nat, locals: seq<W.Value>): seq<W.Value>
    requires q.Valid() && q.Room(locals) && W.InRange(q.Size(), lo)
  {
    if k == 0 then locals else q.Scratch(locals, true, IndexAt(q, lo, k))
  }

  lemma LocalsIndexed(q: Quant, lo: int, k: nat, locals: seq<W.Value>)
    requires Indexed(q, lo, locals)
    ensures Indexed(q, IndexAt(q, lo, k), LocalsAt(q, lo, k, locals))
  {
  }

  lemma LocalsNext(q: Quant, lo: int, k: nat, locals: seq<W.Value>)
    requires Indexed(q, lo, locals)
    ensures q.Room(LocalsAt(q, lo, k, locals))
    ensures q.Scratch(LocalsAt(q, lo, k, locals), true, IndexAt(q, lo, k + 1)) == LocalsAt(q, lo, k + 1, locals)
  {
    if k > 0 { ScratchAgain(q, locals, IndexAt(q, lo, k), IndexAt(q, lo, k + 1)); }
  }

  /** The loop when it comes to its k-th index, the locals at the first one being given. */
  function LoopAt(q: Quant, n: nat, lo: int, k: nat, stack: seq<W.Value>, locals: seq<W.Value>, rt: nat): Outcome
    requires q.Valid() && q.Room(locals) && W.InRange(q.Size(), lo)
  {
    LoopFrom(q, AccAt(q, k), n, stack, LocalsAt(q, lo, k, locals), rt)
  }

  /** One more index takes one iteration. */
  lemma ReachesNext(q: Quant, n: nat, lo: int, k: nat, hi: int, stack: seq<W.Value>, locals: seq<W.Value>, rt: nat)
    requires Indexed(q, lo, locals) && UpperIs(q, hi) && Tried(q, lo, k) == W.Ok(true) && Again(q, lo, hi, k)
    ensures LoopAt(q, n + q.IterationCost(), lo, k, stack, locals, rt) == LoopAt(q, n, lo, k + 1, stack, locals, rt)
  {
    hide LoopFrom, q.Scratch, q.Joined, IndexAt, LocalsAt, q.Room, q.Valid, q.IterationCost, W.InRange, UpperIs;
    NextIndex(q, lo, k);
    LocalsIndexed(q, lo, k, locals);
    LoopAgain(q, AccAt(q, k), n + q.IterationCost(), IndexAt(q, lo, k), hi, stack, LocalsAt(q, lo, k, locals), rt);
    LocalsNext(q, lo, k, locals);
  }

  lemma {:induction false} LoopReaches(q: Quant, n: nat, lo: int, k: nat, hi: int, stack: seq<W.Value>,
      locals: seq<W.Value>, rt: nat)
    requires Indexed(q, lo, locals) && UpperIs(q, hi) && Reaches(q, lo, hi, k)
    ensures LoopAt(q, n + Turns(q, k), lo, 0, stack, locals, rt) == LoopAt(q, n, lo, k, stack, locals, rt)
    decreases k
  {
    hide LoopAt, UpperIs, Tried, Again, q.Room, q.Valid, q.IterationCost, W.InRange;
    if k > 0 {
      var c := q.IterationCost();
      assert Turns(q, k) == c + Turns(q, k - 1);
      ReachesNext(q, n, lo, k - 1, hi, stack, locals, rt);
      LoopReaches(q, n + c, lo, k - 1, hi, stack, locals, rt);
    }
  }

  lemma ScratchIndexed(q: Quant, locals: seq<W.Value>, x: int)
    requires q.Valid() && q.Room(locals) && W.InRange(q.Size(), x)
    ensures Indexed(q, x, q.Scratch(locals, true, x))
  {
  }

  lemma ScratchAgain(q: Quant, locals: seq<W.Value>, x: int, y: int)
    requires q.Valid() && q.Room(locals) && W.InRange(q.Size(), x) && W.InRange(q.Size(), y)
    ensures q.Room(q.Scratch(locals, true, x))
    ensures q.Scratch(q.Scratch(locals, true, x), true, y) == q.Scratch(locals, true, y)
    ensures q.Scratch(q.Scratch(locals, true, x), false, y) == q.Scratch(locals, false, y)
  {
  }

  /** The last iteration: it leaves 1 and the next index is past the bound. */
  lemma LoopEnds(q: Quant, acc: bool, n: nat, x: int, hi: int, stack: seq<W.Value>, locals: seq<W.Value>, rt: nat)
    requires Indexed(q, x, locals) && UpperIs(q, hi) && q.Joined(acc, x) == W.Ok(true)
    requires n > q.IterationCost() && W.Wrap(q.Size(), x + 1) > hi
    ensures LoopFrom(q, acc, n, stack, locals, rt)
         == Normal(n - q.IterationCost() - 1, [W.OfBool(true)] + stack,
              q.Scratch(locals, true, W.Wrap(q.Size(), x + 1)))
  {
    hide EvalSeq, W.Wrap, q.Joined;
    Iteration(q, acc, n, x, stack, locals, rt);
    assert Keep([W.OfBool(true)] + stack, 1) + stack == [W.OfBool(true)] + stack;
  }

  /** An iteration that leaves 0 leaves the surrounding block with it; one whose body traps traps. */
  lemma LoopStops(q: Quant, acc: bool, n: nat, x: int, stack: seq<W.Value>, locals: seq<W.Value>, rt: nat)
    requires Indexed(q, x, locals) && q.Joined(acc, x) != W.Ok(true) && n >= q.IterationCost()
    ensures LoopFrom(q, acc, n, stack, locals, rt)
         == match q.Joined(acc, x)
            case Ok(_) => Branching(n - q.TestCost(), 0, [W.OfBool(false)] + stack, q.Scratch(locals, false, x))
            case Trapped(trap) => Stop(TrapRun(trap))
  {
    hide EvalSeq, q.Joined;
    Iteration(q, acc, n, x, stack, locals, rt);
  }

  // ---------------------------------------------------------------- the block around the loop

  function QuantCode(q: Quant): Code requires q.Valid() {
    CompilesAlike(q);
    PropGenerate(q.tenv, q.Statement()).value.1
  }

  lemma QuantShape(q: Quant)
    requires q.Valid()
    ensures var loop := W.Loop(Some(I32_TO_I32), q.LoopCode());
      QuantCode(q)
      == [W.Block(Some(VOID_TO_I32), InitCode(q.Index(), q.LowerCode(), TruthConst(q.Neutral())) + [loop])]
  {
    GeneratedShape(q);
  }

  /** Turns before the loop is entered. */
  function StartCost(q: Quant): nat requires q.Valid() { |q.LowerCode()| + 4 }

  /** What the enclosing sequence does after the loop's outcome. */
  function AfterLoop(q: Quant, o: Outcome, rest: Code, stack: seq<W.Value>, rt: nat): Outcome {
    match o
    case Normal(k, s, l) => if k == 0 then Stop(OutOfFuel) else EvalSeq(q.m, k - 1, rest, Keep(s, 1) + stack, l, rt)
    case Branching(k, d, s, l) =>
      if d == 0 then EvalSeq(q.m, k, rest, Keep(s, 1) + stack, l, rt) else Branching(k, d - 1, s, l)
    case o => o
  }

  lemma InitStep(q: Quant, n: nat, lo: int, loop: W.Instr, stack: seq<W.Value>, locals: seq<W.Value>, rt: nat)
    requires q.Valid() && q.Room(locals) && LowerIs(q, lo) && n + 1 >= StartCost(q)
    ensures
      EvalSeq(q.m, n, InitCode(q.Index(), q.LowerCode(), TruthConst(q.Neutral())) + [loop], stack, locals, rt)
      == EvalSeq(q.m, n + 2 - StartCost(q), [loop], [W.OfBool(q.Neutral())] + stack,
           locals[q.Index() := W.Make(q.Size(), lo)], rt)
  {
    hide EvalSeq, q.LoopCode, PropScoped, TermScoped, PropGenerate;
    var v := W.Make(q.Size(), lo);
    var e2 := [TruthConst(q.Neutral())] + [loop];
    var e1 := [W.LocalSet(q.Index())] + e2;
    InitShape(q.Index(), q.LowerCode(), TruthConst(q.Neutral()), loop);
    var k := |q.LowerCode()|;
    TermCorrect(q.m, n, q.Bare(), q.env, q.lower, e1, stack, locals, rt);
    PlainStep(q.m, n - k, W.LocalSet(q.Index()), e2, [v] + stack, locals, rt);
    assert ([v] + stack)[1..] == stack;
    PlainStep(q.m, n - k - 1, TruthConst(q.Neutral()), [loop], stack, locals[q.Index() := v], rt);
  }

  lemma EnterLoop(m: W.Linked, acc: bool, n: nat, code: Code, stack: seq<W.Value>, locals: seq<W.Value>, rt: nat)
    requires n > 0
    ensures EvalSeq(m, n, [W.Loop(Some(I32_TO_I32), code)], [W.OfBool(acc)] + stack, locals, rt)
         == LoopOn(m, n - 1, I32_TO_I32, code, stack, [W.OfBool(acc)] + stack, locals, rt)
  {
    hide LoopOn;
    var loop := W.Loop(Some(I32_TO_I32), code);
    assert ([W.OfBool(acc)] + stack)[1..] == stack;
    var o := LoopOn(m, n - 1, I32_TO_I32, code, stack, [W.OfBool(acc)] + stack, locals, rt);
    assert EvalInstr(m, n - 1, loop, [W.OfBool(acc)] + stack, locals, rt) == o;
    if o.Normal? { EmptySeq(m, o.fuel, o.stack, o.locals, rt); }
  }

  lemma EnterBlock(m: W.Linked, n: nat, body: Code, rest: Code, stack: seq<W.Value>, locals: seq<W.Value>, rt: nat)
    requires n > 0
    ensures EvalSeq(m, n, [W.Block(Some(VOID_TO_I32), body)] + rest, stack, locals, rt)
         == match EvalSeq(m, n - 1, body, stack, locals, rt)
            case Normal(k, s, l) =>
              if k == 0 then Stop(OutOfFuel) else EvalSeq(m, k - 1, rest, Keep(s, 1) + stack, l, rt)
            case Branching(k, d, s, l) =>
              if d == 0 then EvalSeq(m, k, rest, Keep(s, 1) + stack, l, rt) else Branching(k, d - 1, s, l)
            case o => o
  {
    var block := W.Block(Some(VOID_TO_I32), body);
    assert ([block] + rest)[1..] == rest;
    assert stack[|VOID_TO_I32.params|..] == stack;
    assert EvalInstr(m, n - 1, block, stack, locals, rt) == EvalBlock(m, n - 1, VOID_TO_I32, body, stack, locals, rt);
  }

  /** The generated code is the loop from the lower bound, with its label and the block's around it. */
  lemma BlockIsLoop(q: Quant, n: nat, lo: int, rest: Code, stack: seq<W.Value>, locals: seq<W.Value>, rt: nat)
    requires q.Valid() && q.Room(locals) && LowerIs(q, lo) && n >= StartCost(q)
    ensures EvalSeq(q.m, n, QuantCode(q) + rest, stack, locals, rt)
         == AfterLoop(q,
              LoopFrom(q, q.Neutral(), n - StartCost(q), stack, locals[q.Index() := W.Make(q.Size(), lo)], rt),
              rest, stack, rt)
  {
    hide EvalSeq, LoopOn;
    GeneratedShape(q);
    BlockEntersLoop(q, n, lo, q.LoopCode(), rest, stack, locals, rt);
  }

  /** Whatever the loop's body is. */
  lemma BlockEntersLoop(q: Quant, n: nat, lo: int, code: Code, rest: Code, stack: seq<W.Value>,
      locals: seq<W.Value>, rt: nat)
    requires q.Valid() && q.Room(locals) && LowerIs(q, lo) && n >= StartCost(q)
    ensures var body := InitCode(q.Index(), q.LowerCode(), TruthConst(q.Neutral())) + [W.Loop(Some(I32_TO_I32), code)];
      EvalSeq(q.m, n, [W.Block(Some(VOID_TO_I32), body)] + rest, stack, locals, rt)
      == AfterLoop(q,
           LoopOn(q.m, n - StartCost(q), I32_TO_I32, code, stack, [W.OfBool(q.Neutral())] + stack,
             locals[q.Index() := W.Make(q.Size(), lo)], rt),
           rest, stack, rt)
  {
    hide EvalSeq, LoopOn;
    var loop := W.Loop(Some(I32_TO_I32), code);
    InitStep(q, n - 1, lo, loop, stack, locals, rt);
    EnterLoop(q.m, q.Neutral(), n + 1 - StartCost(q), code, stack, locals[q.Index() := W.Make(q.Size(), lo)], rt);
    EnterBlock(q.m, n, InitCode(q.Index(), q.LowerCode(), TruthConst(q.Neutral())) + [loop], rest, stack, locals, rt);
  }

  // ---------------------------------------------------------------- verdicts

  /**
   * Given enough turns, the code ends having pushed b, changed only the temporary and the binder, and used
   * a fixed number of turns.
   */
  ghost predicate Leaves(q: Quant, b: bool, stack: seq<W.Value>, locals: seq<W.Value>, rt: nat)
    requires q.Valid() && q.Room(locals)
  {
    exists enough: nat, used: nat, acc: bool, x: int :: LeavesWithin(q, b, enough, used, stack, locals, acc, x, rt)
  }

  ghost predicate LeavesWithin(q: Quant, b: bool, enough: nat, used: nat, stack: seq<W.Value>, locals: seq<W.Value>,
      acc: bool, x: int, rt: nat)
    requires q.Valid() && q.Room(locals)
  {
    W.InRange(q.Size(), x) && used <= enough && forall n: nat, rest: Code :: n >= enough ==>
      EvalSeq(q.m, n, QuantCode(q) + rest, stack, locals, rt)
      == EvalSeq(q.m, n - used, rest, [W.OfBool(b)] + stack, q.Scratch(locals, acc, x), rt)
  }

  ghost predicate Traps(q: Quant, trap: W.Trap, stack: seq<W.Value>, locals: seq<W.Value>, rt: nat)
    requires q.Valid()
  {
    exists enough: nat :: TrapsWithin(q, trap, enough, stack, locals, rt)
  }

  ghost predicate TrapsWithin(q: Quant, trap: W.Trap, enough: nat, stack: seq<W.Value>, locals: seq<W.Value>, rt: nat)
    requires q.Valid()
  {
    forall n: nat, rest: Code :: n >= enough
      ==> EvalSeq(q.m, n, QuantCode(q) + rest, stack, locals, rt) == Stop(TrapRun(trap))
  }

  /** No budget is enough. */
  ghost predicate Diverges(q: Quant, stack: seq<W.Value>, locals: seq<W.Value>, rt: nat)
    requires q.Valid()
  {
    forall n: nat, rest: Code :: EvalSeq(q.m, n, QuantCode(q) + rest, stack, locals, rt) == Stop(OutOfFuel)
  }

  function Entered(q: Quant, lo: int, locals: seq<W.Value>): seq<W.Value>
    requires q.Valid() && q.Room(locals) && W.InRange(q.Size(), lo)
  {
    locals[q.Index() := W.Make(q.Size(), lo)]
  }

  lemma EnteredFacts(q: Quant, lo: int, locals: seq<W.Value>)
    requires q.Valid() && q.Room(locals) && W.InRange(q.Size(), lo)
    ensures Indexed(q, lo, Entered(q, lo, locals))
    ensures forall acc: bool, x: int ::
      W.InRange(q.Size(), x) ==> q.Scratch(Entered(q, lo, locals), acc, x) == q.Scratch(locals, acc, x)
  {
  }

  /** Turns used when k indices were passed and what follows takes the last ones. */
  function Used(q: Quant, k: nat, last: nat): nat
    requires q.Valid()
  {
    last + Turns(q, k) + StartCost(q)
  }

  lemma CodeReaches(q: Quant, total: nat, n: nat, lo: int, k: nat, hi: int, rest: Code, stack: seq<W.Value>,
      locals: seq<W.Value>, rt: nat)
    requires q.Valid() && q.Room(locals) && q.Bounds(lo, hi) && Reaches(q, lo, hi, k) && total == Used(q, k, n)
    ensures Indexed(q, lo, Entered(q, lo, locals))
    ensures Indexed(q, IndexAt(q, lo, k), LocalsAt(q, lo, k, Entered(q, lo, locals)))
    ensures EvalSeq(q.m, total, QuantCode(q) + rest, stack, locals, rt)
         == AfterLoop(q, LoopFrom(q, AccAt(q, k), n, stack, LocalsAt(q, lo, k, Entered(q, lo, locals)), rt),
              rest, stack, rt)
  {
    hide EvalSeq, LoopFrom, AfterLoop;
    EnteredFacts(q, lo, locals);
    BlockIsLoop(q, total, lo, rest, stack, locals, rt);
    LocalsIndexed(q, lo, k, Entered(q, lo, locals));
    LoopReaches(q, n, lo, k, hi, stack, Entered(q, lo, locals), rt);
  }

  /** At the k-th index only the temporary and the binder are not as before. */
  lemma ScratchAt(q: Quant, lo: int, k: nat, locals: seq<W.Value>, x: int)
    requires q.Valid() && q.Room(locals) && W.InRange(q.Size(), lo) && W.InRange(q.Size(), x)
    ensures q.Room(LocalsAt(q, lo, k, Entered(q, lo, locals)))
    ensures q.Scratch(LocalsAt(q, lo, k, Entered(q, lo, locals)), true, x) == q.Scratch(locals, true, x)
    ensures q.Scratch(LocalsAt(q, lo, k, Entered(q, lo, locals)), false, x) == q.Scratch(locals, false, x)
  {
    EnteredFacts(q, lo, locals);
    if k > 0 { ScratchAgain(q, locals, IndexAt(q, lo, k), x); }
  }

  lemma KeepTop(v: W.Value, stack: seq<W.Value>)
    ensures Keep([v] + stack, 1) + stack == [v] + stack
  {
  }

  /** The k-th index is the last one tried: the next is past the upper bound. */
  ghost predicate EndsAt(q: Quant, lo: int, hi: int, k: nat)
    requires q.Valid() && W.InRange(q.Size(), lo)
  {
    Reaches(q, lo, hi, k) && Tried(q, lo, k) == W.Ok(true) && !Again(q, lo, hi, k)
  }

  lemma TrueAt(q: Quant, total: nat, n: nat, lo: int, k: nat, hi: int, rest: Code, stack: seq<W.Value>,
      locals: seq<W.Value>, rt: nat)
    requires q.Valid() && q.Room(locals) && q.Bounds(lo, hi) && EndsAt(q, lo, hi, k)
    requires total == Used(q, k, n + q.IterationCost() + 2)
    ensures EvalSeq(q.m, total, QuantCode(q) + rest, stack, locals, rt)
         == EvalSeq(q.m, n, rest, [W.OfBool(true)] + stack, q.Scratch(locals, true, IndexAt(q, lo, k + 1)), rt)
  {
    hide EvalSeq, LoopFrom, Used, q.Joined, QuantCode, q.Scratch, LocalsAt, AccAt, IndexAt, q.IterationCost, Reaches;
    var left := n + q.IterationCost() + 2;
    CodeReaches(q, total, left, lo, k, hi, rest, stack, locals, rt);
    NextIndex(q, lo, k);
    LoopEnds(q, AccAt(q, k), left, IndexAt(q, lo, k), hi, stack, LocalsAt(q, lo, k, Entered(q, lo, locals)), rt);
    ScratchAt(q, lo, k, locals, IndexAt(q, lo, k + 1));
    KeepTop(W.OfBool(true), stack);
  }

  /** Where the loop ends it leaves 1. */
  lemma LeavesTrue(q: Quant, lo: int, k: nat, hi: int, stack: seq<W.Value>, locals: seq<W.Value>, rt: nat)
    requires q.Valid() && q.Room(locals) && q.Bounds(lo, hi) && EndsAt(q, lo, hi, k)
    ensures Leaves(q, true, stack, locals, rt)
    ensures var used := Used(q, k, q.IterationCost() + 2);
      LeavesWithin(q, true, used, used, stack, locals, true, IndexAt(q, lo, k + 1), rt)
  {
    hide EvalSeq, EndsAt, Turns, StartCost, q.IterationCost, QuantCode, IndexAt;
    var used, x := Used(q, k, q.IterationCost() + 2), IndexAt(q, lo, k + 1);
    forall n: nat, rest: Code | n >= used
      ensures EvalSeq(q.m, n, QuantCode(q) + rest, stack, locals, rt)
           == EvalSeq(q.m, n - used, rest, [W.OfBool(true)] + stack, q.Scratch(locals, true, x), rt)
    {
      TrueAt(q, n, n - used, lo, k, hi, rest, stack, locals, rt);
    }
    assert LeavesWithin(q, true, used, used, stack, locals, true, x, rt);
  }

  /** The k-th index stops the loop; the lower bound is tried even when the range is empty. */
  ghost predicate StopsAt(q: Quant, lo: int, hi: int, k: nat)
    requires q.Valid() && W.InRange(q.Size(), lo)
  {
    Reaches(q, lo, hi, k) && Tried(q, lo, k) != W.Ok(true)
  }

  lemma StopAt(q: Quant, total: nat, n: nat, lo: int, k: nat, hi: int, rest: Code, stack: seq<W.Value>,
      locals: seq<W.Value>, rt: nat)
    requires q.Valid() && q.Room(locals) && q.Bounds(lo, hi) && StopsAt(q, lo, hi, k) && n >= q.IterationCost()
    requires total == Used(q, k, n)
    ensures EvalSeq(q.m, total, QuantCode(q) + rest, stack, locals, rt)
         == match Tried(q, lo, k)
            case Ok(_) =>
              EvalSeq(q.m, n - q.TestCost(), rest, [W.OfBool(false)] + stack,
                q.Scratch(locals, false, IndexAt(q, lo, k)), rt)
            case Trapped(trap) => Stop(TrapRun(trap))
  {
    hide EvalSeq, LoopFrom, Used, q.Joined, QuantCode, q.Scratch, LocalsAt, AccAt, IndexAt, Reaches;
    CodeReaches(q, total, n, lo, k, hi, rest, stack, locals, rt);
    LoopStops(q, AccAt(q, k), n, IndexAt(q, lo, k), stack, LocalsAt(q, lo, k, Entered(q, lo, locals)), rt);
    ScratchAt(q, lo, k, locals, IndexAt(q, lo, k));
    KeepTop(W.OfBool(false), stack);
  }

  lemma FalseAt(q: Quant, n: nat, used: nat, lo: int, k: nat, hi: int, rest: Code, stack: seq<W.Value>,
      locals: seq<W.Value>, rt: nat)
    requires q.Valid() && q.Room(locals) && q.Bounds(lo, hi) && StopsAt(q, lo, hi, k) && Tried(q, lo, k).Ok?
    requires n >= Used(q, k, q.IterationCost()) && used == Used(q, k, q.TestCost()) <= n
    ensures EvalSeq(q.m, n, QuantCode(q) + rest, stack, locals, rt)
         == EvalSeq(q.m, n - used, rest, [W.OfBool(false)] + stack, q.Scratch(locals, false, IndexAt(q, lo, k)), rt)
  {
    hide EvalSeq, QuantCode, StopsAt, Tried, IndexAt, Turns, q.IterationCost, q.TestCost;
    StopAt(q, n, n - Used(q, k, 0), lo, k, hi, rest, stack, locals, rt);
  }

  /** Where the accumulated truth is 0 at the index that stops the loop, 0 is left. */
  lemma LeavesFalse(q: Quant, lo: int, k: nat, hi: int, stack: seq<W.Value>, locals: seq<W.Value>, rt: nat)
    requires q.Valid() && q.Room(locals) && q.Bounds(lo, hi) && StopsAt(q, lo, hi, k) && Tried(q, lo, k).Ok?
    ensures Leaves(q, false, stack, locals, rt)
    ensures LeavesWithin(q, false, Used(q, k, q.IterationCost()), Used(q, k, q.TestCost()), stack, locals, false,
      IndexAt(q, lo, k), rt)
  {
    var enough, used, x := Used(q, k, q.IterationCost()), Used(q, k, q.TestCost()), IndexAt(q, lo, k);
    assert used <= enough;
    hide EvalSeq, StopsAt, Tried, QuantCode, Used, q.IterationCost, q.TestCost, IndexAt, q.Valid, q.Room;
    forall n: nat, rest: Code | n >= enough
      ensures EvalSeq(q.m, n, QuantCode(q) + rest, stack, locals, rt)
           == EvalSeq(q.m, n - used, rest, [W.OfBool(false)] + stack, q.Scratch(locals, false, x), rt)
    {
      FalseAt(q, n, used, lo, k, hi, rest, stack, locals, rt);
    }
    assert LeavesWithin(q, false, enough, used, stack, locals, false, x, rt);
  }

  /** Where the body traps at the index that stops the loop, so does the code. */
  lemma TrapsInBody(q: Quant, lo: int, k: nat, hi: int, stack: seq<W.Value>, locals: seq<W.Value>, rt: nat)
    requires q.Valid() && q.Room(locals) && q.Bounds(lo, hi) && StopsAt(q, lo, hi, k) && Tried(q, lo, k).Trapped?
    ensures Traps(q, Tried(q, lo, k).trap, stack, locals, rt)
  {
    var enough, trap := Used(q, k, q.IterationCost()), Tried(q, lo, k).trap;
    hide EvalSeq, StopsAt, Tried, q.Bounds, q.Room, Turns, StartCost, q.IterationCost, QuantCode;
    forall n: nat, rest: Code | n >= enough
      ensures EvalSeq(q.m, n, QuantCode(q) + rest, stack, locals, rt) == Stop(TrapRun(trap))
    {
      StopAt(q, n, n - Used(q, k, 0), lo, k, hi, rest, stack, locals, rt);
    }
    assert TrapsWithin(q, trap, enough, stack, locals, rt);
  }

  lemma NoTurnsNoLoop(q: Quant, acc: bool, stack: seq<W.Value>, locals: seq<W.Value>, rt: nat)
    requires q.Valid()
    ensures LoopFrom(q, acc, 0, stack, locals, rt) == Stop(OutOfFuel)
  {
  }

  lemma {:induction false} TurnsAtLeast(q: Quant, k: nat)
    requires q.Valid()
    ensures Turns(q, k) >= k
  {
    if k > 0 { TurnsAtLeast(q, k - 1); }
  }

  /** Where every index is reached, no budget is enough. */
  lemma NeverStopped(q: Quant, lo: int, hi: int, stack: seq<W.Value>, locals: seq<W.Value>, rt: nat)
    requires q.Valid() && q.Room(locals) && q.Bounds(lo, hi) && forall k: nat :: Reaches(q, lo, hi, k)
    ensures Diverges(q, stack, locals, rt)
  {
    hide EvalSeq, Reaches, LoopFrom, QuantCode, LocalsAt;
    forall n: nat, rest: Code
      ensures EvalSeq(q.m, n, QuantCode(q) + rest, stack, locals, rt) == Stop(OutOfFuel)
    {
      var total := Used(q, n, 0);
      TurnsAtLeast(q, n);
      CodeReaches(q, total, 0, lo, n, hi, rest, stack, locals, rt);
      NoTurnsNoLoop(q, AccAt(q, n), stack, LocalsAt(q, lo, n, Entered(q, lo, locals)), rt);
      if EvalSeq(q.m, n, QuantCode(q) + rest, stack, locals, rt) != Stop(OutOfFuel) {
        SeqMonotone(q.m, n, total - n, QuantCode(q) + rest, stack, locals, rt);
      }
    }
  }

  // ---------------------------------------------------------------- every pair of bounds

  /**
   * Past the first index x is tried unless the loop is left before: within the range; and below it too when
   * the index wraps, because the first index or the upper bound is the type's maximum.
   */
  predicate Visits(q: Quant, lo: int, hi: int, x: int) {
    x <= hi && (lo < x || lo == MaxOf(q.Size()) || hi == MaxOf(q.Size()))
  }

  /** Nothing the loop tries stops it. */
  ghost predicate Clear(q: Quant, lo: int, hi: int)
    requires q.Valid() && W.InRange(q.Size(), lo)
  {
    && q.Joined(q.Neutral(), lo) == W.Ok(true)
    && forall x :: W.InRange(q.Size(), x) && Visits(q, lo, hi, x) ==> q.Joined(true, x) == W.Ok(true)
  }

  /** Every index reached past the first is one that is visited. */
  lemma {:induction false} ReachedIsVisited(q: Quant, lo: int, hi: int, k: nat)
    requires q.Valid() && W.InRange(q.Size(), lo) && W.InRange(q.Size(), hi) && k > 0 && Reaches(q, lo, hi, k)
    ensures Visits(q, lo, hi, IndexAt(q, lo, k))
  {
    hide q.Valid, Tried;
    assert Again(q, lo, hi, k - 1);
    if k > 1 {
      ReachedIsVisited(q, lo, hi, k - 1);
    }
  }

  /** Every index visited is reached or something stops the loop before. */
  lemma VisitedIsReached(q: Quant, lo: int, hi: int, x: int) returns (k: nat)
    requires q.Valid() && W.InRange(q.Size(), lo) && W.InRange(q.Size(), hi) && W.InRange(q.Size(), x)
    requires Visits(q, lo, hi, x)
    ensures k > 0 && IndexAt(q, lo, k) == x
    ensures forall i: nat :: i < k ==> Again(q, lo, hi, i)
  {
    hide q.Valid, IndexAt;
    k := if lo < x then x - lo else x - lo + W.Modulus(q.Size());
    IndexIs(q, lo, k);
    forall i: nat | i < k ensures Again(q, lo, hi, i) { IndexIs(q, lo, i + 1); }
  }

  lemma {:induction false} ClearReaches(q: Quant, lo: int, hi: int, k: nat)
    requires q.Valid() && W.InRange(q.Size(), lo) && W.InRange(q.Size(), hi) && Clear(q, lo, hi)
    requires forall i: nat :: i < k ==> Again(q, lo, hi, i)
    ensures Reaches(q, lo, hi, k) && Tried(q, lo, k) == W.Ok(true)
  {
    hide q.Valid, q.Joined;
    if k > 0 {
      ClearReaches(q, lo, hi, k - 1);
      assert Again(q, lo, hi, k - 1);
      ReachedIsVisited(q, lo, hi, k);
    }
  }

  /** The last index tried when nothing stops the loop and the upper bound is not the type's maximum. */
  function LastIndex(q: Quant, lo: int, hi: int): nat
    requires W.InRange(q.Size(), lo) && W.InRange(q.Size(), hi)
  {
    if lo <= hi then hi - lo else if lo < MaxOf(q.Size()) then 0 else hi - lo + W.Modulus(q.Size())
  }

  lemma LastIndexIsLast(q: Quant, lo: int, hi: int)
    requires W.InRange(q.Size(), lo) && W.InRange(q.Size(), hi) && hi < MaxOf(q.Size())
    ensures !Again(q, lo, hi, LastIndex(q, lo, hi))
    ensures forall i: nat :: i < LastIndex(q, lo, hi) ==> Again(q, lo, hi, i)
  {
    hide IndexAt;
    var k := LastIndex(q, lo, hi);
    IndexIs(q, lo, k + 1);
    forall i: nat | i < k ensures Again(q, lo, hi, i) { IndexIs(q, lo, i + 1); }
  }

  lemma ClearEnds(q: Quant, lo: int, hi: int)
    requires q.Valid() && W.InRange(q.Size(), lo) && W.InRange(q.Size(), hi) && Clear(q, lo, hi)
    requires hi < MaxOf(q.Size())
    ensures EndsAt(q, lo, hi, LastIndex(q, lo, hi))
  {
    hide q.Valid, Clear, Reaches, Tried;
    LastIndexIsLast(q, lo, hi);
    ClearReaches(q, lo, hi, LastIndex(q, lo, hi));
  }

  lemma ClearNeverEnds(q: Quant, lo: int, k: nat)
    requires q.Valid() && W.InRange(q.Size(), lo) && Clear(q, lo, MaxOf(q.Size()))
    ensures Reaches(q, lo, MaxOf(q.Size()), k)
  {
    ClearReaches(q, lo, MaxOf(q.Size()), k);
  }

  /** Something that is tried and is not true. */
  lemma BadIndex(q: Quant, lo: int, hi: int) returns (k: nat)
    requires q.Valid() && W.InRange(q.Size(), lo) && W.InRange(q.Size(), hi) && !Clear(q, lo, hi)
    ensures Tried(q, lo, k) != W.Ok(true) && forall i: nat :: i < k ==> Again(q, lo, hi, i)
  {
    hide q.Valid, q.Joined, Visits, Again, IndexAt;
    k := 0;
    if q.Joined(q.Neutral(), lo) == W.Ok(true) {
      var x :| W.InRange(q.Size(), x) && Visits(q, lo, hi, x) && q.Joined(true, x) != W.Ok(true);
      k := VisitedIsReached(q, lo, hi, x);
    } else {
      StartsAtLower(q, lo);
    }
  }

  lemma StartsAtLower(q: Quant, lo: int)
    requires W.InRange(q.Size(), lo)
    ensures IndexAt(q, lo, 0) == lo
  {
  }

  /** The first index that stops the loop. */
  lemma FirstStop(q: Quant, lo: int, hi: int) returns (k: nat)
    requires q.Valid() && W.InRange(q.Size(), lo) && W.InRange(q.Size(), hi) && !Clear(q, lo, hi)
    ensures StopsAt(q, lo, hi, k)
  {
    hide q.Valid, Clear, Tried, Again, W.InRange;
    var last := BadIndex(q, lo, hi);
    k := 0;
    while Tried(q, lo, k) == W.Ok(true)
      invariant k <= last && Reaches(q, lo, hi, k)
      decreases last - k
    {
      k := k + 1;
    }
  }

  /**
   * Whatever the body and the bounds: if nothing that is visited stops the loop, the code leaves 1, or does
   * not end when the upper bound is the type's maximum; otherwise the first index that stops it decides, by
   * accumulating 0 or by trapping.
   */
  lemma Verdict(q: Quant, lo: int, hi: int, stack: seq<W.Value>, locals: seq<W.Value>, rt: nat) returns (k: nat)
    requires q.Valid() && q.Room(locals) && q.Bounds(lo, hi)
    ensures Clear(q, lo, hi) && hi < MaxOf(q.Size()) ==> Leaves(q, true, stack, locals, rt)
    ensures Clear(q, lo, hi) && hi == MaxOf(q.Size()) ==> Diverges(q, stack, locals, rt)
    ensures !Clear(q, lo, hi) ==> StopsAt(q, lo, hi, k)
    ensures !Clear(q, lo, hi) && Tried(q, lo, k).Ok? ==> Leaves(q, false, stack, locals, rt)
    ensures !Clear(q, lo, hi) && Tried(q, lo, k).Trapped? ==> Traps(q, Tried(q, lo, k).trap, stack, locals, rt)
  {
    hide q.Valid, Clear, Tried, Leaves, Traps, Diverges, StopsAt, Reaches, EndsAt;
    k := 0;
    if !Clear(q, lo, hi) {
      k := FirstStop(q, lo, hi);
      if Tried(q, lo, k).Ok? {
        LeavesFalse(q, lo, k, hi, stack, locals, rt);
      } else {
        TrapsInBody(q, lo, k, hi, stack, locals, rt);
      }
    } else if hi < MaxOf(q.Size()) {
      ClearEnds(q, lo, hi);
      LeavesTrue(q, lo, LastIndex(q, lo, hi), hi, stack, locals, rt);
    } else {
      forall i: nat ensures Reaches(q, lo, hi, i) { ClearNeverEnds(q, lo, i); }
      NeverStopped(q, lo, hi, stack, locals, rt);
    }
  }

  // ---------------------------------------------------------------- bounds that trap

  /** A trap in the lower bound is the trap of the whole. */
  lemma LowerTraps(q: Quant, stack: seq<W.Value>, locals: seq<W.Value>, rt: nat)
    requires q.Valid() && q.Room(locals) && TermGenerate(q.Bare(), q.lower).Ok?
    requires TermValue(q.Bare(), q.env, q.lower).Trapped?
    ensures Traps(q, TermValue(q.Bare(), q.env, q.lower).trap, stack, locals, rt)
  {
    hide EvalSeq, q.LoopCode, PropScoped, TermScoped, PropGenerate, QuantCode;
    var trap, enough := TermValue(q.Bare(), q.env, q.lower).trap, |q.LowerCode()| + 1;
    forall n: nat, rest: Code | n >= enough
      ensures EvalSeq(q.m, n, QuantCode(q) + rest, stack, locals, rt) == Stop(TrapRun(trap))
    {
      LowerTrapsAt(q, n, rest, stack, locals, rt);
    }
    assert TrapsWithin(q, trap, enough, stack, locals, rt);
  }

  lemma InitShape(binder: nat, lower: Code, neutral: W.Instr, loop: W.Instr)
    ensures InitCode(binder, lower, neutral) + [loop] == lower + ([W.LocalSet(binder)] + ([neutral] + [loop]))
  {
  }

  lemma InitTraps(q: Quant, n: nat, loop: W.Instr, stack: seq<W.Value>, locals: seq<W.Value>, rt: nat)
    requires q.Valid() && q.Room(locals) && TermGenerate(q.Bare(), q.lower).Ok? && n >= |q.LowerCode()|
    requires TermValue(q.Bare(), q.env, q.lower).Trapped?
    ensures EvalSeq(q.m, n, InitCode(q.Index(), q.LowerCode(), TruthConst(q.Neutral())) + [loop], stack, locals, rt)
         == Stop(TrapRun(TermValue(q.Bare(), q.env, q.lower).trap))
  {
    hide EvalSeq, q.LoopCode, PropScoped, TermScoped, PropGenerate;
    InitShape(q.Index(), q.LowerCode(), TruthConst(q.Neutral()), loop);
    var e1 := [W.LocalSet(q.Index())] + ([TruthConst(q.Neutral())] + [loop]);
    TermCorrect(q.m, n, q.Bare(), q.env, q.lower, e1, stack, locals, rt);
  }

  lemma LowerTrapsAt(q: Quant, n: nat, rest: Code, stack: seq<W.Value>, locals: seq<W.Value>, rt: nat)
    requires q.Valid() && q.Room(locals) && TermGenerate(q.Bare(), q.lower).Ok? && n > |q.LowerCode()|
    requires TermValue(q.Bare(), q.env, q.lower).Trapped?
    ensures EvalSeq(q.m, n, QuantCode(q) + rest, stack, locals, rt)
         == Stop(TrapRun(TermValue(q.Bare(), q.env, q.lower).trap))
  {
    hide EvalSeq, QuantCode, q.LoopCode, InitCode, q.LowerCode, q.Valid, q.Room, PropGenerate, TermGenerate, TermValue;
    QuantShape(q);
    var loop := W.Loop(Some(I32_TO_I32), q.LoopCode());
    InitTraps(q, n - 1, loop, stack, locals, rt);
    EnterBlock(q.m, n, InitCode(q.Index(), q.LowerCode(), TruthConst(q.Neutral())) + [loop], rest, stack, locals, rt);
  }

  /** With an upper bound that traps: the lower bound still decides if it stops the loop, else the bound's trap does. */
  lemma UpperTraps(q: Quant, n: nat, lo: int, rest: Code, stack: seq<W.Value>, locals: seq<W.Value>, rt: nat)
    requires q.Valid() && q.Room(locals) && LowerIs(q, lo) && TermGenerate(q.Bare(), q.upper).Ok?
    requires TermValue(q.Bare(), q.env, q.upper).Trapped? && n >= StartCost(q) + q.IterationCost()
    ensures StartCost(q) + q.TestCost() <= n
    ensures EvalSeq(q.m, n, QuantCode(q) + rest, stack, locals, rt)
         == match q.Joined(q.Neutral(), lo)
            case Trapped(trap) => Stop(TrapRun(trap))
            case Ok(t) =>
              if t then Stop(TrapRun(TermValue(q.Bare(), q.env, q.upper).trap))
              else EvalSeq(q.m, n - StartCost(q) - q.TestCost(), rest, [W.OfBool(false)] + stack,
                     q.Scratch(locals, false, lo), rt)
  {
    hide EvalSeq, q.Joined, QuantCode, LoopFrom, StartCost, PropScoped, TermScoped;
    EnteredFacts(q, lo, locals);
    BlockIsLoop(q, n, lo, rest, stack, locals, rt);
    OnceOnly(q, n - StartCost(q), lo, stack, Entered(q, lo, locals), rt);
    KeepTop(W.OfBool(false), stack);
  }

  lemma OnceOnly(q: Quant, n: nat, x: int, stack: seq<W.Value>, locals: seq<W.Value>, rt: nat)
    requires Indexed(q, x, locals) && TermGenerate(q.Bare(), q.upper).Ok?
    requires TermValue(q.Bare(), q.env, q.upper).Trapped? && n >= q.IterationCost()
    ensures LoopFrom(q, q.Neutral(), n, stack, locals, rt)
         == match q.Joined(q.Neutral(), x)
            case Trapped(trap) => Stop(TrapRun(trap))
            case Ok(t) =>
              if t then Stop(TrapRun(TermValue(q.Bare(), q.env, q.upper).trap))
              else Branching(n - q.TestCost(), 0, [W.OfBool(false)] + stack, q.Scratch(locals, false, x))
  {
    hide EvalSeq, q.Joined;
    Iteration(q, q.Neutral(), n, x, stack, locals, rt);
  }

  // ---------------------------------------------------------------- verdicts compared

  /** The outcome of the code by itself. */
  function Alone(q: Quant, n: nat, stack: seq<W.Value>, locals: seq<W.Value>, rt: nat): Outcome
    requires q.Valid()
  {
    EvalSeq(q.m, n, QuantCode(q) + [], stack, locals, rt)
  }

  lemma LeavesAt(q: Quant, b: bool, n: nat, enough: nat, used: nat, stack: seq<W.Value>, locals: seq<W.Value>,
      acc: bool, x: int, rt: nat)
    requires q.Valid() && q.Room(locals) && LeavesWithin(q, b, enough, used, stack, locals, acc, x, rt) && n >= enough
    ensures Alone(q, n, stack, locals, rt) == Normal(n - used, [W.OfBool(b)] + stack, q.Scratch(locals, acc, x))
  {
    hide EvalSeq, QuantCode;
    EmptySeq(q.m, n - used, [W.OfBool(b)] + stack, q.Scratch(locals, acc, x), rt);
  }

  lemma TrapsAt(q: Quant, trap: W.Trap, n: nat, enough: nat, stack: seq<W.Value>, locals: seq<W.Value>, rt: nat)
    requires q.Valid() && TrapsWithin(q, trap, enough, stack, locals, rt) && n >= enough
    ensures Alone(q, n, stack, locals, rt) == Stop(TrapRun(trap))
  {
  }

  lemma DivergesAt(q: Quant, n: nat, stack: seq<W.Value>, locals: seq<W.Value>, rt: nat)
    requires q.Valid() && Diverges(q, stack, locals, rt)
    ensures Alone(q, n, stack, locals, rt) == Stop(OutOfFuel)
  {
  }

  /** The ways to end exclude one another. */
  lemma OneVerdict(q: Quant, stack: seq<W.Value>, locals: seq<W.Value>, rt: nat)
    requires q.Valid() && q.Room(locals)
    ensures !(Leaves(q, true, stack, locals, rt) && Leaves(q, false, stack, locals, rt))
    ensures forall b: bool :: !(Leaves(q, b, stack, locals, rt) && Diverges(q, stack, locals, rt))
    ensures forall trap: W.Trap :: !(Traps(q, trap, stack, locals, rt) && Diverges(q, stack, locals, rt))
    ensures forall b: bool, trap: W.Trap :: !(Leaves(q, b, stack, locals, rt) && Traps(q, trap, stack, locals, rt))
  {
    hide Alone, LeavesWithin, TrapsWithin, Diverges, q.Valid, q.Room;
    assert ([W.OfBool(true)] + stack)[0] != ([W.OfBool(false)] + stack)[0];
    forall trap: W.Trap | Traps(q, trap, stack, locals, rt) ensures !Diverges(q, stack, locals, rt) {
      var e: nat :| TrapsWithin(q, trap, e, stack, locals, rt);
      TrapsAt(q, trap, e, e, stack, locals, rt);
      if Diverges(q, stack, locals, rt) { DivergesAt(q, e, stack, locals, rt); }
    }
    forall b: bool | Leaves(q, b, stack, locals, rt)
      ensures !Diverges(q, stack, locals, rt)
      ensures forall trap: W.Trap :: !Traps(q, trap, stack, locals, rt)
      ensures b ==> !Leaves(q, false, stack, locals, rt)
    {
      var e: nat, used: nat, acc: bool, x: int :| LeavesWithin(q, b, e, used, stack, locals, acc, x, rt);
      LeavesAt(q, b, e, e, used, stack, locals, acc, x, rt);
      if Diverges(q, stack, locals, rt) { DivergesAt(q, e, stack, locals, rt); }
      forall trap: W.Trap ensures !Traps(q, trap, stack, locals, rt) {
        if Traps(q, trap, stack, locals, rt) {
          var e': nat :| TrapsWithin(q, trap, e', stack, locals, rt);
          LeavesAt(q, b, e + e', e, used, stack, locals, acc, x, rt);
          TrapsAt(q, trap, e + e', e', stack, locals, rt);
        }
      }
      if b && Leaves(q, false, stack, locals, rt) {
        var e': nat, used': nat, acc': bool, x': int
          :| LeavesWithin(q, false, e', used', stack, locals, acc', x', rt);
        LeavesAt(q, b, e + e', e, used, stack, locals, acc, x, rt);
        LeavesAt(q, false, e + e', e', used', stack, locals, acc', x', rt);
      }
    }
  }

  /** The body traps nowhere. */
  ghost predicate Total(q: Quant)
    requires q.Valid()
  {
    forall x :: W.InRange(q.Size(), x) ==> q.Body(x).Ok?
  }

  lemma ConstantBody(q: Quant, b: bool)
    requires q.Valid()
    ensures var q' := q.(body := Const(b));
      q'.Valid() && forall x :: W.InRange(q'.Size(), x) ==> q'.Body(x) == W.Ok(b)
  {
  }

  /**
   * On the control machine, inside any blocks and callers: the run goes on after the quantifier with its
   * truth on the stack.
   */
  lemma OnMachine(q: Quant, n: nat, s: State, rest: Code, b: bool, enough: nat, used: nat, acc: bool, x: int)
    requires q.Valid() && q.Room(s.locals) && s.env == q.m && s.pc == QuantCode(q) + rest
    requires LeavesWithin(q, b, enough, used, s.stack, s.locals, acc, x, |s.funcRt|) && n >= enough
    ensures Run(n, s)
         == Run(n - used, s.(pc := rest, stack := [W.OfBool(b)] + s.stack, locals := q.Scratch(s.locals, acc, x)))
  {
    hide EvalSeq, Run, QuantCode;
    var s' := s.(pc := rest, stack := [W.OfBool(b)] + s.stack, locals := q.Scratch(s.locals, acc, x));
    SeqSimulated(n, s);
    SeqSimulated(n - used, s');
    var o := EvalSeq(q.m, n - used, rest, s'.stack, s'.locals, |s.funcRt|);
    assert EvalSeq(q.m, n, QuantCode(q) + rest, s.stack, s.locals, |s.funcRt|) == o;
    assert Finish(o, s) == Finish(o, s');
  }
}
