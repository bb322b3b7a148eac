/**
 * What the operators of specifications mean, of the operands alone, and where the checking function keeps its
 * variables.
 */
module WeaselMeaning {
  import W = Wasm
  import opened Operators
  import opened Weasel
  import opened WeaselProofs
  import opened WeaselConnectives

  /** Sums, differences and products modulo the width; quotients towards zero, with the traps of division. */
  lemma ArithmeticMeans(nn: W.Size, x: int, y: int) returns (q: int, r: int)
    requires Fits(nn, x) && Fits(nn, y)
    ensures Arith(nn, Plus, x, y).Ok? && Congruent(nn, Arith(nn, Plus, x, y).value, x + y)
    ensures Arith(nn, Minus, x, y).Ok? && Congruent(nn, Arith(nn, Minus, x, y).value, x - y)
    ensures Arith(nn, Mult, x, y).Ok? && Congruent(nn, Arith(nn, Mult, x, y).value, x * y)
    ensures y == 0 ==> Arith(nn, Div, x, y) == W.Trapped(W.IntegerDivideByZero)
    ensures y != 0 ==> TruncatedDivision(x, y, q, r)
    ensures y != 0 ==> Arith(nn, Div, x, y) == if Fits(nn, q) then W.Ok(q) else W.Trapped(W.IntegerOverflow)
  {
    ReadingIsU(nn, x);
    ReadingIsU(nn, y);
    SumsWrap(nn, x, y);
    q, r := SignedDivision(nn, x, y);
    ArithIsBinop(nn, Plus, x, y);
    ArithIsBinop(nn, Minus, x, y);
    ArithIsBinop(nn, Mult, x, y);
    ArithIsBinop(nn, Div, x, y);
    hide W.ApplyBinop, Arith, Congruent, TruncatedDivision, Fits;
  }

  /** Signed comparisons, and the truth tables of the connectives. */
  lemma TruthMeans(x: int, y: int, a: bool, b: bool)
    ensures (Holds(Ge, x, y) <==> !(x < y)) && (Holds(Gt, x, y) <==> y < x)
    ensures (Holds(Le, x, y) <==> !(y < x)) && (Holds(Lt, x, y) <==> x < y)
    ensures (Holds(Eq, x, y) <==> !(x < y || y < x)) && (Holds(Neq, x, y) <==> x < y || y < x)
    ensures (Joined(And, a, b) <==> !(!a || !b)) && (Joined(Or, a, b) <==> !(!a && !b))
    ensures (Joined(Imply, a, b) <==> !(a && !b)) && (Joined(Equiv, a, b) <==> (a && b) || (!a && !b))
  {
  }

  /**
   * The locals of a checking function, one after another: parameters, the temporary, results, and the variable of
   * a quantifier; each quantifier further in has the next one.
   */
  lemma LocalsInOrder(m: W.Module, ty: W.FuncType, bt: W.ValType, inner: W.ValType)
    ensures var tenv := BuildTypeEnv(m, ty);
      && tenv.params == ty.params && tenv.results == ty.results && tenv.binders == []
      && tenv.Temp() == |ty.params|
      && (forall k: nat :: k < |ty.results| ==> tenv.Result(k) == |ty.params| + 1 + k)
      && tenv.Enter(bt).BinderAt(0) == |ty.params| + 1 + |ty.results|
      && tenv.Enter(bt).Enter(inner).BinderAt(0) == tenv.Enter(bt).BinderAt(0) + 1
      && tenv.Enter(bt).Enter(inner).binders == [inner, bt]
  {
  }
}
