/**
 * What the code of a bounded exists decides. Its loop is left, like that of a forall, as soon as the
 * accumulated truth is 0, so the lower bound alone decides: the code is right exactly where that is enough.
 */
module WeaselExists {
  import W = Wasm
  import opened Weasel
  import opened WeaselQuantifier
  import opened WeaselLoop

  /** What the quantifier says: the body holds at some index of the range. */
  ghost predicate Means(q: Quant, lo: int, hi: int)
    requires q.Valid()
  {
    exists x :: lo <= x <= hi && W.InRange(q.Size(), x) && q.Body(x) == W.Ok(true)
  }

  /** The body traps nowhere the code goes once the lower bound has decided. */
  ghost predicate Quiet(q: Quant, lo: int, hi: int)
    requires q.Valid()
  {
    forall x :: W.InRange(q.Size(), x) && Visits(q, lo, hi, x) ==> q.Body(x).Ok?
  }

  /** Past the lower bound nothing but a trap stops the loop. */
  lemma ExistsTries(q: Quant, lo: int, hi: int)
    requires q.Valid() && q.kind.Exists? && W.InRange(q.Size(), lo)
    ensures Clear(q, lo, hi) <==> q.Body(lo) == W.Ok(true) && Quiet(q, lo, hi)
    ensures Tried(q, lo, 0) == q.Body(lo)
    ensures forall k: nat :: k > 0 ==>
      Tried(q, lo, k) == match q.Body(IndexAt(q, lo, k)) case Ok(_) => W.Ok(true) case Trapped(t) => W.Trapped(t)
  {
    hide q.Body, q.Valid;
    assert forall x :: W.InRange(q.Size(), x) ==>
      q.Joined(true, x) == match q.Body(x) case Ok(_) => W.Ok(true) case Trapped(t) => W.Trapped(t);
  }

  /** j is the first index in the order in which they are tried at which the body traps. */
  ghost predicate FirstTrap(q: Quant, lo: int, hi: int, k: nat, j: int)
    requires q.Valid() && W.InRange(q.Size(), lo)
  {
    && j == IndexAt(q, lo, k) && q.Body(j).Trapped?
    && forall i: nat :: i < k ==> q.Body(IndexAt(q, lo, i)).Ok? && Again(q, lo, hi, i)
  }

  /**
   * Whatever the bounds and the body: 0 where the body fails at the lower bound, whatever it does elsewhere;
   * where it holds there, 1, or no end if the upper bound is the type's maximum, unless the body traps at
   * some index tried, although it is decided by then.
   */
  lemma ExistsVerdict(q: Quant, lo: int, hi: int, stack: seq<W.Value>, locals: seq<W.Value>, rt: nat)
    returns (k: nat, j: int)
    requires q.kind.Exists? && q.Valid() && q.Room(locals) && q.Bounds(lo, hi)
    ensures W.InRange(q.Size(), j)
    ensures q.Body(lo) == W.Ok(false) ==> Leaves(q, false, stack, locals, rt)
    ensures q.Body(lo) == W.Ok(true) && Quiet(q, lo, hi) && hi < MaxOf(q.Size()) ==> Leaves(q, true, stack, locals, rt)
    ensures q.Body(lo) == W.Ok(true) && Quiet(q, lo, hi) && hi == MaxOf(q.Size()) ==> Diverges(q, stack, locals, rt)
    ensures q.Body(lo).Trapped? || (q.Body(lo) == W.Ok(true) && !Quiet(q, lo, hi)) ==>
      FirstTrap(q, lo, hi, k, j) && Traps(q, q.Body(j).trap, stack, locals, rt)
  {
    hide q.Body, q.Valid, Tried, Leaves, Traps, Diverges, Clear, Quiet;
    ExistsTries(q, lo, hi);
    k := Verdict(q, lo, hi, stack, locals, rt);
    j := IndexAt(q, lo, k);
    if !Clear(q, lo, hi) {
      if q.Body(lo).Ok? { assert k == 0 || Tried(q, lo, 0) == W.Ok(true); }
      forall i: nat | i < k ensures q.Body(IndexAt(q, lo, i)).Ok? && Again(q, lo, hi, i) {
        assert Tried(q, lo, i) == W.Ok(true);
      }
    }
  }

  lemma TrueOrFalse(q: Quant)
    requires q.Valid() && Total(q)
    ensures forall x :: W.InRange(q.Size(), x) ==> q.Body(x) == W.Ok(true) || q.Body(x) == W.Ok(false)
  {
    hide q.Body, q.Valid;
    forall x | W.InRange(q.Size(), x) ensures q.Body(x) == W.Ok(true) || q.Body(x) == W.Ok(false) {
      if q.Body(x).value { } else { }
    }
  }

  /**
   * For every pair of bounds and every body that never traps: where the body holds at the lower bound the
   * code leaves what the quantifier says if and only if the range is not empty and ends below the type's
   * maximum; where it does not, if and only if it holds nowhere in the range.
   */
  lemma ExistsRightExactly(q: Quant, lo: int, hi: int, stack: seq<W.Value>, locals: seq<W.Value>, rt: nat)
    requires q.kind.Exists? && q.Valid() && q.Room(locals) && q.Bounds(lo, hi) && Total(q)
    ensures Leaves(q, Means(q, lo, hi), stack, locals, rt)
      <==> if q.Body(lo) == W.Ok(true) then lo <= hi < MaxOf(q.Size())
           else forall x :: lo <= x <= hi ==> q.Body(x) == W.Ok(false)
  {
    hide q.Body, q.Valid, Leaves, Traps, Diverges;
    var k, j := ExistsVerdict(q, lo, hi, stack, locals, rt);
    OneVerdict(q, stack, locals, rt);
    TrueOrFalse(q);
    assert Quiet(q, lo, hi);
    if lo <= hi && q.Body(lo) == W.Ok(true) { assert Means(q, lo, hi); }
    assert Means(q, lo, hi) || forall x :: lo <= x <= hi ==> q.Body(x) == W.Ok(false);
  }

  // ---------------------------------------------------------------- bounds

  /** The same bounds under another body. */
  ghost predicate Decides(q: Quant, body: Prop, lo: int, hi: int, stack: seq<W.Value>, locals: seq<W.Value>, rt: nat) {
    var q' := q.(body := body);
    q'.Valid() && q'.Room(locals) && Total(q') ==> Leaves(q', Means(q', lo, hi), stack, locals, rt)
  }

  /** x != lo, for the bound variable x. */
  function NotLower(q: Quant, lo: int): Prop
    requires W.InRange(q.Size(), lo)
  {
    BinPred(Neq, BinderVar(0), if q.bt.TI32? then Int32(lo) else Int64(lo))
  }

  lemma NotLowerHolds(q: Quant, lo: int)
    requires q.Valid() && W.InRange(q.Size(), lo)
    ensures var q' := q.(body := NotLower(q, lo));
      q'.Valid() && forall x :: W.InRange(q'.Size(), x) ==> q'.Body(x) == W.Ok(x != lo)
  {
  }

  /**
   * The bounds for which every body is decided: one index, below the type's maximum. In a longer range the
   * code misses a body that holds only further up.
   */
  lemma ExistsBoundsExactly(q: Quant, lo: int, hi: int, stack: seq<W.Value>, locals: seq<W.Value>, rt: nat)
    requires q.kind.Exists? && q.Valid() && q.Room(locals) && q.Bounds(lo, hi)
    ensures (forall body :: Decides(q, body, lo, hi, stack, locals, rt)) <==> lo == hi < MaxOf(q.Size())
  {
    if lo == hi < MaxOf(q.Size()) {
      forall body ensures Decides(q, body, lo, hi, stack, locals, rt) {
        var q' := q.(body := body);
        if q'.Valid() && q'.Room(locals) && Total(q') { OneIndexDecided(q', lo, stack, locals, rt); }
      }
    } else if lo < hi {
      MissesFurtherUp(q, lo, hi, stack, locals, rt);
      assert !Decides(q, NotLower(q, lo), lo, hi, stack, locals, rt);
    } else {
      AlwaysTrueMissed(q, lo, hi, stack, locals, rt);
      assert !Decides(q, Const(true), lo, hi, stack, locals, rt);
    }
  }

  lemma OneIndexDecided(q: Quant, lo: int, stack: seq<W.Value>, locals: seq<W.Value>, rt: nat)
    requires q.kind.Exists? && q.Valid() && q.Room(locals) && q.Bounds(lo, lo) && Total(q) && lo < MaxOf(q.Size())
    ensures Leaves(q, Means(q, lo, lo), stack, locals, rt)
  {
    hide Leaves, q.Body;
    ExistsRightExactly(q, lo, lo, stack, locals, rt);
    TrueOrFalse(q);
  }

  lemma MissesFurtherUp(q: Quant, lo: int, hi: int, stack: seq<W.Value>, locals: seq<W.Value>, rt: nat)
    requires q.kind.Exists? && q.Valid() && q.Room(locals) && q.Bounds(lo, hi) && lo < hi
    ensures !Decides(q, NotLower(q, lo), lo, hi, stack, locals, rt)
  {
    NotLowerHolds(q, lo);
    var q' := q.(body := NotLower(q, lo));
    hide Leaves, q'.Valid, q'.Body, NotLower;
    assert q'.Body(hi) == W.Ok(true) && q'.Body(lo) == W.Ok(false);
    ExistsRightExactly(q', lo, hi, stack, locals, rt);
  }

  /** An empty range, or one index that is the type's maximum. */
  lemma AlwaysTrueMissed(q: Quant, lo: int, hi: int, stack: seq<W.Value>, locals: seq<W.Value>, rt: nat)
    requires q.kind.Exists? && q.Valid() && q.Room(locals) && q.Bounds(lo, hi)
    requires lo > hi || lo == hi == MaxOf(q.Size())
    ensures !Decides(q, Const(true), lo, hi, stack, locals, rt)
  {
    ConstantBody(q, true);
    var q' := q.(body := Const(true));
    hide Leaves, q'.Valid, q'.Body;
    assert q'.Body(lo) == W.Ok(true);
    ExistsRightExactly(q', lo, hi, stack, locals, rt);
  }
}
