/**
 * The priority queue as a binary heap in a growable array. An entry on its way up or down is held aside:
 * the array has a hole at the place it has reached, and what is in order is the array with the hole filled.
 */
module ArrayHeap {
  import opened Prelude

  type Entry<V> = (int, V)

  function Parent(i: nat): nat
    requires i > 0
  {
    (i - 1) / 2
  }

  /** Every entry's priority is at least its parent's. */
  ghost predicate Ordered<V>(s: seq<Entry<V>>) {
    forall k :: 0 < k < |s| ==> s[Parent(k)].0 <= s[k].0
  }

  /** In order, except that the entry at i may be smaller than its parent. */
  ghost predicate OrderedAbove<V>(s: seq<Entry<V>>, i: nat) {
    && (forall k :: 0 < k < |s| && k != i ==> s[Parent(k)].0 <= s[k].0)
    && (forall k :: 0 < k < |s| && 0 < i < |s| && Parent(k) == i ==> s[Parent(i)].0 <= s[k].0)
  }

  /** In order, except that the entry at i may be greater than its children. */
  ghost predicate OrderedBelow<V>(s: seq<Entry<V>>, i: nat) {
    && (forall k :: 0 < k < |s| && Parent(k) != i ==> s[Parent(k)].0 <= s[k].0)
    && (forall k :: 0 < k < |s| && 0 < i < |s| && Parent(k) == i ==> s[Parent(i)].0 <= s[k].0)
  }

  /** The root of a heap is a minimum. */
  lemma {:induction false} RootIsMinimum<V>(s: seq<Entry<V>>, k: nat)
    requires Ordered(s) && k < |s|
    ensures s[0].0 <= s[k].0
  {
    if k > 0 {
      RootIsMinimum(s, Parent(k));
      assert s[Parent(k)].0 <= s[k].0;
    }
  }

  /** Moving the hole: the entry at j goes to the hole at i, the one held aside to j. */
  lemma HoleMoves<V>(s: seq<Entry<V>>, x: Entry<V>, i: nat, j: nat)
    requires i < |s| && j < |s| && i != j
    ensures multiset(s[i := s[j]][j := x]) == multiset(s[i := x])
  {
  }

  /** One step up. */
  lemma StepUp<V>(s: seq<Entry<V>>, x: Entry<V>, i: nat)
    requires 0 < i < |s| && OrderedAbove(s[i := x], i) && s[Parent(i)].0 > x.0
    ensures OrderedAbove(s[i := s[Parent(i)]][Parent(i) := x], Parent(i))
  {
  }

  /** Where an entry that is at most its parent closes the hole. */
  lemma StopUp<V>(s: seq<Entry<V>>, i: nat)
    requires i < |s| && OrderedAbove(s, i) && (i > 0 ==> s[Parent(i)].0 <= s[i].0)
    ensures Ordered(s)
  {
  }

  function SmallerOf<V>(s: seq<Entry<V>>, l: nat, r: nat): nat
    requires l < |s| && r < |s|
  {
    if s[r].0 < s[l].0 then r else l
  }

  /** The smaller child of i if it is smaller than x, otherwise i. */
  function SmallestNode<V>(s: seq<Entry<V>>, x: Entry<V>, i: nat): (j: nat)
    requires i < |s|
    ensures i <= j < |s|
  {
    var l := 2 * i + 1;
    if l >= |s| then i else
    var j := if l + 1 < |s| then SmallerOf(s, l, l + 1) else l;
    if s[j].0 < x.0 then j else i
  }

  lemma SmallestIsSmallest<V>(s: seq<Entry<V>>, x: Entry<V>, i: nat, k: nat)
    requires i < |s| && 0 < k < |s| && Parent(k) == i
    ensures var j := SmallestNode(s, x, i);
      if j == i then x.0 <= s[k].0 else Parent(j) == i && s[j].0 < x.0 && s[j].0 <= s[k].0
  {
  }

  lemma StepDown<V>(s: seq<Entry<V>>, x: Entry<V>, i: nat, j: nat)
    requires i < |s| && OrderedBelow(s[i := x], i) && j == SmallestNode(s, x, i) && i != j
    ensures OrderedBelow(s[i := s[j]][j := x], j)
  {
    SmallestIsSmallest(s, x, i, j);
    var t, t' := s[i := x], s[i := s[j]][j := x];
    forall k | 0 < k < |s| && Parent(k) != j ensures t'[Parent(k)].0 <= t'[k].0 {
      if Parent(k) == i { SmallestIsSmallest(s, x, i, k); } else { assert t[Parent(k)].0 <= t[k].0; }
    }
    forall k | 0 < k < |s| && Parent(k) == j ensures t'[Parent(j)].0 <= t'[k].0 {
      assert t[Parent(k)].0 <= t[k].0;
    }
  }

  lemma StopDown<V>(s: seq<Entry<V>>, x: Entry<V>, i: nat)
    requires i < |s| && OrderedBelow(s[i := x], i) && SmallestNode(s, x, i) == i
    ensures Ordered(s[i := x])
  {
  }

  /** s' is s without e, an entry of minimum priority. */
  ghost predicate TakenOut<V>(s: seq<Entry<V>>, e: Entry<V>, s': seq<Entry<V>>) {
    e in s && (forall e' <- s :: e.0 <= e'.0) && multiset(s') == multiset(s) - multiset{e}
  }

  /** What one call does: an entry goes in, an entry comes out, or nothing does because the heap is empty. */
  datatype Op<V> = In(x: Entry<V>) | Out(e: Entry<V>) | Empty

  ghost predicate Step<V>(s: seq<Entry<V>>, op: Op<V>, s': seq<Entry<V>>) {
    && Ordered(s')
    && match op
       case In(x) => multiset(s') == multiset(s) + multiset{x}
       case Out(e) => TakenOut(s, e, s')
       case Empty => s == [] && s' == []
  }

  class Heap<V> {
    var items: seq<Entry<V>>

    constructor ()
      ensures items == [] && Ordered(items)
    {
      items := [];
    }

    method MoveUp(x: Entry<V>, i: nat)
      requires i < |items| && OrderedAbove(items[i := x], i)
      modifies this
      ensures Ordered(items) && multiset(items) == multiset(old(items)[i := x])
      decreases i
    {
      if i == 0 {
        items := items[i := x];
        StopUp(items, i);
      } else {
        var fi := Parent(i);
        var y := items[fi];
        if y.0 > x.0 {
          StepUp(items, x, i);
          HoleMoves(items, x, i, fi);
          items := items[i := y];
          MoveUp(x, fi);
        } else {
          items := items[i := x];
          StopUp(items, i);
        }
      }
    }

    method Push(x: Entry<V>)
      requires Ordered(items)
      modifies this
      ensures Ordered(items) && multiset(items) == multiset(old(items)) + multiset{x}
      ensures Step(old(items), In(x), items)
    {
      var n := |items|;
      items := items + [x];
      assert items[n := x] == items;
      MoveUp(x, n);
    }

    method MoveDown(x: Entry<V>, i: nat)
      requires i < |items| && OrderedBelow(items[i := x], i)
      modifies this
      ensures Ordered(items) && multiset(items) == multiset(old(items)[i := x])
      decreases |items| - i
    {
      var j := SmallestNode(items, x, i);
      if j == i {
        StopDown(items, x, i);
        items := items[i := x];
      } else {
        StepDown(items, x, i, j);
        HoleMoves(items, x, i, j);
        items := items[i := items[j]];
        MoveDown(x, j);
      }
    }

    /** Takes out an entry of minimum priority. */
    method Pop() returns (r: Option<V>)
      requires Ordered(items)
      modifies this
      ensures Ordered(items)
      ensures r.None? <==> old(items) == []
      ensures r.None? ==> Step(old(items), Empty, items)
      ensures r.Some? ==> exists e :: Step(old(items), Out(e), items) && e.1 == r.value
    {
      var n := |items|;
      if n == 0 {
        return None;
      }
      var y := items[0];
      var x := items[n - 1];
      ghost var was := items;
      forall e' | e' in was ensures y.0 <= e'.0 {
        var k :| 0 <= k < |was| && was[k] == e';
        RootIsMinimum(was, k);
      }
      items := items[..n - 1];
      if n > 1 {
        LastToFront(was);
        LastToFrontOrdered(was);
        MoveDown(x, 0);
      } else {
        assert was == [y];
      }
      assert Step(was, Out(y), items);
      return Some(y.1);
    }
  }

  /** Taking the root out by putting the last entry in its place. */
  lemma LastToFront<V>(s: seq<Entry<V>>)
    requires |s| > 1
    ensures multiset(s[..|s| - 1][0 := s[|s| - 1]]) == multiset(s) - multiset{s[0]}
  {
    var mid, last := s[1..|s| - 1], s[|s| - 1];
    assert s == [s[0]] + mid + [last];
    assert s[..|s| - 1][0 := last] == [last] + mid;
    LastForFirst(s[0], mid, last);
  }

  lemma LastForFirst<V>(first: Entry<V>, mid: seq<Entry<V>>, last: Entry<V>)
    ensures multiset([last] + mid) == multiset([first] + mid + [last]) - multiset{first}
  {
  }

  lemma LastToFrontOrdered<V>(s: seq<Entry<V>>)
    requires |s| > 1 && Ordered(s)
    ensures OrderedBelow(s[..|s| - 1][0 := s[|s| - 1]], 0)
  {
    var t := s[..|s| - 1][0 := s[|s| - 1]];
    forall k | 0 < k < |t| && Parent(k) != 0 ensures t[Parent(k)].0 <= t[k].0 {
      assert s[Parent(k)].0 <= s[k].0;
    }
  }

  // ---------------------------------------------------------------- runs

  /** The contents after each of the calls on a new heap. */
  ghost predicate Run<V>(states: seq<seq<Entry<V>>>, ops: seq<Op<V>>) {
    && |states| == |ops| + 1 && states[0] == []
    && forall k :: 0 <= k < |ops| ==> Step(states[k], ops[k], states[k + 1])
  }

  ghost function Ins<V>(ops: seq<Op<V>>): multiset<Entry<V>> {
    if ops == [] then multiset{} else
    var last := ops[|ops| - 1];
    Ins(ops[..|ops| - 1]) + if last.In? then multiset{last.x} else multiset{}
  }

  ghost function Outs<V>(ops: seq<Op<V>>): multiset<Entry<V>> {
    if ops == [] then multiset{} else
    var last := ops[|ops| - 1];
    Outs(ops[..|ops| - 1]) + if last.Out? then multiset{last.e} else multiset{}
  }

  lemma StepContents<V>(s: seq<Entry<V>>, op: Op<V>, s': seq<Entry<V>>)
    requires Step(s, op, s')
    ensures multiset(s) + (if op.In? then multiset{op.x} else multiset{})
      == multiset(s') + if op.Out? then multiset{op.e} else multiset{}
  {
    hide Ordered;
    if op.Out? { assert multiset(s') + multiset{op.e} == multiset(s); }
  }

  /** At every moment of a run the heap is in order and holds what went in and has not come out. */
  lemma {:induction false} RunContents<V>(states: seq<seq<Entry<V>>>, ops: seq<Op<V>>, k: nat)
    requires Run(states, ops) && k <= |ops|
    ensures Ordered(states[k]) && Ins(ops[..k]) == multiset(states[k]) + Outs(ops[..k])
  {
    if k > 0 {
      assert Step(states[k - 1], ops[k - 1], states[k]);
      assert Ordered(states[k]);
      hide Ordered, Step, Run;
      RunContents(states, ops, k - 1);
      assert ops[..k][..k - 1] == ops[..k - 1];
      StepContents(states[k - 1], ops[k - 1], states[k]);
    }
  }

  /** An entry that comes out is a minimum of all that went in and did not come out before. */
  lemma RunTakesMinimum<V>(states: seq<seq<Entry<V>>>, ops: seq<Op<V>>, k: nat, e: Entry<V>)
    requires Run(states, ops) && k < |ops| && ops[k].Out?
    requires e in Ins(ops[..k]) - Outs(ops[..k])
    ensures ops[k].e in Ins(ops[..k]) - Outs(ops[..k]) && ops[k].e.0 <= e.0
  {
    RunContents(states, ops, k);
    assert Step(states[k], ops[k], states[k + 1]);
    assert Ins(ops[..k]) - Outs(ops[..k]) == multiset(states[k]);
  }

  /** Nothing comes out exactly when all that went in has come out. */
  lemma RunGivesNothing<V>(states: seq<seq<Entry<V>>>, ops: seq<Op<V>>, k: nat)
    requires Run(states, ops) && k < |ops| && !ops[k].In?
    ensures ops[k].Empty? <==> Ins(ops[..k]) == Outs(ops[..k])
  {
    RunContents(states, ops, k);
    assert Step(states[k], ops[k], states[k + 1]);
    if ops[k].Out? {
      assert ops[k].e in multiset(states[k]);
      assert Ins(ops[..k])[ops[k].e] > Outs(ops[..k])[ops[k].e];
    }
  }

  /** While nothing goes in, entries come out in ascending order of priority. */
  lemma {:induction false} DrainsAscending<V>(states: seq<seq<Entry<V>>>, ops: seq<Op<V>>, k: nat, l: nat)
    requires Run(states, ops) && k < l < |ops| && ops[k].Out? && ops[l].Out?
    requires forall i :: k < i < l ==> !ops[i].In?
    ensures ops[k].e.0 <= ops[l].e.0
  {
    OnlyFewer(states, ops, k + 1, l);
    assert Step(states[k], ops[k], states[k + 1]) && Step(states[l], ops[l], states[l + 1]);
    assert ops[l].e in multiset(states[l]);
    assert ops[l].e in multiset(states[k]);
  }

  lemma {:induction false} OnlyFewer<V>(states: seq<seq<Entry<V>>>, ops: seq<Op<V>>, k: nat, l: nat)
    requires Run(states, ops) && k <= l < |ops| && forall i :: k <= i < l ==> !ops[i].In?
    ensures multiset(states[l]) <= multiset(states[k])
  {
    if k < l {
      OnlyFewer(states, ops, k, l - 1);
      assert Step(states[l - 1], ops[l - 1], states[l]);
    }
  }
}
