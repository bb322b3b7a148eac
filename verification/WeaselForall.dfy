/** What the code of a bounded forall decides, and for which bounds that is what the specification says. */
module WeaselForall {
  import W = Wasm
  import opened Weasel
  import opened WeaselQuantifier
  import opened WeaselLoop

  /** What the quantifier says: the body holds at every index of the range. */
  ghost predicate Means(q: Quant, lo: int, hi: int)
    requires q.Valid()
  {
    forall x :: lo <= x <= hi && W.InRange(q.Size(), x) ==> q.Body(x) == W.Ok(true)
  }

  /** The body holds at every index tried: at the lower bound, also of an empty range, and from there on. */
  ghost predicate HoldsWhereTried(q: Quant, lo: int, hi: int)
    requires q.Valid() && W.InRange(q.Size(), lo)
  {
    && q.Body(lo) == W.Ok(true)
    && forall x :: W.InRange(q.Size(), x) && Visits(q, lo, hi, x) ==> q.Body(x) == W.Ok(true)
  }

  /** What is accumulated is the body's own truth, as long as the loop goes on. */
  lemma ForallTries(q: Quant, lo: int, hi: int)
    requires q.Valid() && q.kind.Forall? && W.InRange(q.Size(), lo)
    ensures Clear(q, lo, hi) <==> HoldsWhereTried(q, lo, hi)
    ensures forall k: nat :: Tried(q, lo, k) == q.Body(IndexAt(q, lo, k))
  {
    hide q.Body, q.Valid;
    assert forall x :: W.InRange(q.Size(), x) ==> q.Joined(true, x) == q.Body(x);
  }

  /** j is the first index in the order in which they are tried at which the body does not hold. */
  ghost predicate FirstBad(q: Quant, lo: int, hi: int, k: nat, j: int)
    requires q.Valid() && W.InRange(q.Size(), lo)
  {
    && j == IndexAt(q, lo, k) && q.Body(j) != W.Ok(true)
    && forall i: nat :: i < k ==> q.Body(IndexAt(q, lo, i)) == W.Ok(true) && Again(q, lo, hi, i)
  }

  /**
   * Whatever the bounds and the body: where the body holds at every index tried the code leaves 1, or does
   * not end if the upper bound is the type's maximum; otherwise the first index tried at which it does not
   * hold decides, by failing or by trapping.
   */
  lemma ForallVerdict(q: Quant, lo: int, hi: int, stack: seq<W.Value>, locals: seq<W.Value>, rt: nat)
    returns (k: nat, j: int)
    requires q.kind.Forall? && q.Valid() && q.Room(locals) && q.Bounds(lo, hi)
    ensures W.InRange(q.Size(), j)
    ensures HoldsWhereTried(q, lo, hi) && hi < MaxOf(q.Size()) ==> Leaves(q, true, stack, locals, rt)
    ensures HoldsWhereTried(q, lo, hi) && hi == MaxOf(q.Size()) ==> Diverges(q, stack, locals, rt)
    ensures !HoldsWhereTried(q, lo, hi) ==> FirstBad(q, lo, hi, k, j)
    ensures !HoldsWhereTried(q, lo, hi) && q.Body(j).Ok? ==> Leaves(q, false, stack, locals, rt)
    ensures !HoldsWhereTried(q, lo, hi) && q.Body(j).Trapped? ==> Traps(q, q.Body(j).trap, stack, locals, rt)
  {
    hide q.Body, q.Valid, Tried, Leaves, Traps, Diverges, Clear, HoldsWhereTried;
    ForallTries(q, lo, hi);
    k := Verdict(q, lo, hi, stack, locals, rt);
    j := IndexAt(q, lo, k);
    assert Tried(q, lo, k) == q.Body(j);
    if !Clear(q, lo, hi) {
      forall i: nat | i < k ensures q.Body(IndexAt(q, lo, i)) == W.Ok(true) && Again(q, lo, hi, i) {
        assert Tried(q, lo, i) == W.Ok(true);
      }
    }
  }

  /** Where the code is right, of a body that never traps. */
  ghost predicate Right(q: Quant, lo: int, hi: int)
    requires q.Valid() && W.InRange(q.Size(), lo)
  {
    if lo <= hi then hi < MaxOf(q.Size()) || !Means(q, lo, hi)
    else
      && q.Body(lo) == W.Ok(true)
      && (lo == MaxOf(q.Size()) ==> forall x :: W.InRange(q.Size(), x) && x <= hi ==> q.Body(x) == W.Ok(true))
  }

  lemma HoldsInRange(q: Quant, lo: int, hi: int)
    requires q.Valid() && W.InRange(q.Size(), lo) && W.InRange(q.Size(), hi)
    ensures HoldsWhereTried(q, lo, hi) && lo <= hi ==> Means(q, lo, hi)
    ensures lo <= hi < MaxOf(q.Size()) ==> (HoldsWhereTried(q, lo, hi) <==> Means(q, lo, hi))
    ensures lo > hi ==> (HoldsWhereTried(q, lo, hi) <==> Right(q, lo, hi)) && Means(q, lo, hi)
  {
    hide q.Body, q.Valid;
  }

  /**
   * For every pair of bounds and every body that never traps: the code leaves what the quantifier says if
   * and only if, on a range that is not empty, it ends below the type's maximum or the body fails in it; on
   * an empty one, the body holds at the lower bound, and up to the upper one when that is the type's maximum.
   */
  lemma ForallRightExactly(q: Quant, lo: int, hi: int, stack: seq<W.Value>, locals: seq<W.Value>, rt: nat)
    requires q.kind.Forall? && q.Valid() && q.Room(locals) && q.Bounds(lo, hi) && Total(q)
    ensures Leaves(q, Means(q, lo, hi), stack, locals, rt) <==> Right(q, lo, hi)
  {
    var k, j := ForallVerdict(q, lo, hi, stack, locals, rt);
    OneVerdict(q, stack, locals, rt);
    HoldsInRange(q, lo, hi);
    assert q.Body(j).Ok?;
    hide q.Body, q.Valid, Leaves, Traps, Diverges, HoldsWhereTried;
  }

  /**
   * On a non-empty range below the type's maximum the code terminates and leaves 1 if the body holds at
   * every index, else 0; the rest of the stack and all other locals are as before.
   */
  lemma ForallCorrect(q: Quant, lo: int, hi: int, stack: seq<W.Value>, locals: seq<W.Value>, rt: nat)
    requires q.kind.Forall? && q.Valid() && q.Room(locals) && q.Bounds(lo, hi) && Total(q)
    requires lo <= hi < MaxOf(q.Size())
    ensures Leaves(q, Means(q, lo, hi), stack, locals, rt)
  {
    ForallRightExactly(q, lo, hi, stack, locals, rt);
  }

  /** The code runs for ever exactly when the upper bound is the type's maximum and the body holds wherever tried. */
  lemma MaximumDiverges(q: Quant, lo: int, hi: int, stack: seq<W.Value>, locals: seq<W.Value>, rt: nat)
    requires q.kind.Forall? && q.Valid() && q.Room(locals) && q.Bounds(lo, hi)
    ensures Diverges(q, stack, locals, rt) <==> hi == MaxOf(q.Size()) && HoldsWhereTried(q, lo, hi)
    ensures HoldsWhereTried(q, lo, MaxOf(q.Size())) <==>
      forall x :: W.InRange(q.Size(), x) ==> q.Body(x) == W.Ok(true)
  {
    hide q.Body, q.Valid, Leaves, Traps, Diverges;
    var k, j := ForallVerdict(q, lo, hi, stack, locals, rt);
    OneVerdict(q, stack, locals, rt);
  }

  /** The same bounds under another body. */
  ghost predicate Decides(q: Quant, body: Prop, lo: int, hi: int, stack: seq<W.Value>, locals: seq<W.Value>, rt: nat) {
    var q' := q.(body := body);
    q'.Valid() && q'.Room(locals) && Total(q') ==> Leaves(q', Means(q', lo, hi), stack, locals, rt)
  }

  /** The bounds for which every body is decided: a range that is not empty and ends below the type's maximum. */
  lemma BoundsHandledExactly(q: Quant, lo: int, hi: int, stack: seq<W.Value>, locals: seq<W.Value>, rt: nat)
    requires q.kind.Forall? && q.Valid() && q.Room(locals) && q.Bounds(lo, hi)
    ensures (forall body :: Decides(q, body, lo, hi, stack, locals, rt)) <==> lo <= hi < MaxOf(q.Size())
  {
    if lo <= hi < MaxOf(q.Size()) {
      forall body ensures Decides(q, body, lo, hi, stack, locals, rt) {
        var q' := q.(body := body);
        if q'.Valid() && q'.Room(locals) && Total(q') {
          ForallCorrect(q', lo, hi, stack, locals, rt);
        }
      }
    } else {
      var body := Const(lo <= hi);
      var q' := q.(body := body);
      ConstantBody(q, lo <= hi);
      ForallRightExactly(q', lo, hi, stack, locals, rt);
      assert !Decides(q, body, lo, hi, stack, locals, rt);
    }
  }
}
