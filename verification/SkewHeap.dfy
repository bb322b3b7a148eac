/** The priority queue as a skew heap that merges along left spines. */
module SkewHeap {
  import opened Prelude

  datatype Heap<V> = Empty | Node(left: Heap<V>, key: int, value: V, right: Heap<V>)

  function Merge<V>(h1: Heap<V>, h2: Heap<V>): Heap<V>
    decreases Size(h1) + Size(h2)
  {
    if h1.Empty? then h2 else if h2.Empty? then h1
    else if h1.key <= h2.key then Node(h1.right, h1.key, h1.value, Merge(h1.left, h2))
    else Node(h2.right, h2.key, h2.value, Merge(h2.left, h1))
  }

  function Pop<V>(h: Heap<V>): (Option<V>, Heap<V>) {
    if h.Empty? then (None, h) else (Some(h.value), Merge(h.left, h.right))
  }

  function Push<V>(v: V, h: Heap<V>): Heap<V> {
    Merge(h, Node(Empty, 1, v, Empty))
  }

  function Size<V>(h: Heap<V>): nat {
    if h.Empty? then 0 else Size(h.left) + 1 + Size(h.right)
  }

  ghost function Entries<V>(h: Heap<V>): multiset<(int, V)> {
    if h.Empty? then multiset{} else multiset{(h.key, h.value)} + Entries(h.left) + Entries(h.right)
  }

  // ---------------------------------------------------------------- order and contents

  /** Every key is at least low, and at least the key above it. */
  predicate Ordered<V>(h: Heap<V>, low: int) {
    h.Node? ==> low <= h.key && Ordered(h.left, h.key) && Ordered(h.right, h.key)
  }

  lemma {:induction false} OrderedLower<V>(h: Heap<V>, low: int, lower: int)
    requires Ordered(h, low) && lower <= low
    ensures Ordered(h, lower)
  {
  }

  lemma {:induction false} MergeOrdered<V>(h1: Heap<V>, h2: Heap<V>, low: int)
    requires Ordered(h1, low) && Ordered(h2, low)
    ensures Ordered(Merge(h1, h2), low)
    decreases Size(h1) + Size(h2)
  {
    if h1.Node? && h2.Node? {
      if h1.key <= h2.key {
        OrderedLower(h2, h2.key, h1.key);
        MergeOrdered(h1.left, h2, h1.key);
      } else {
        MergeOrdered(h2.left, h1, h2.key);
      }
    }
  }

  lemma Regroup<E>(e: multiset<E>, l: multiset<E>, r: multiset<E>, h: multiset<E>)
    ensures e + r + (l + h) == e + l + r + h == h + (e + l + r)
  {
  }

  lemma {:induction false} MergeEntries<V>(h1: Heap<V>, h2: Heap<V>)
    ensures Entries(Merge(h1, h2)) == Entries(h1) + Entries(h2)
    decreases Size(h1) + Size(h2)
  {
    if h1.Node? && h2.Node? {
      if h1.key <= h2.key {
        MergeEntries(h1.left, h2);
        Regroup(multiset{(h1.key, h1.value)}, Entries(h1.left), Entries(h1.right), Entries(h2));
      } else {
        MergeEntries(h2.left, h1);
        Regroup(multiset{(h2.key, h2.value)}, Entries(h2.left), Entries(h2.right), Entries(h1));
      }
    }
  }

  lemma {:induction false} OrderedMinimum<V>(h: Heap<V>, low: int)
    requires Ordered(h, low)
    ensures forall e :: e in Entries(h) ==> low <= e.0
  {
    if h.Node? {
      OrderedMinimum(h.left, h.key);
      OrderedMinimum(h.right, h.key);
    }
  }

  /** pop takes out one entry, of minimum priority, and leaves the rest in order. */
  lemma PopTakesMinimum<V>(h: Heap<V>, low: int)
    requires Ordered(h, low)
    ensures Pop(h).0.None? <==> Entries(h) == multiset{}
    ensures h.Empty? ==> Pop(h).1 == h
    ensures h.Node? ==> var e := (h.key, h.value);
      && Pop(h).0 == Some(e.1) && e in Entries(h) && Entries(Pop(h).1) == Entries(h) - multiset{e}
      && (forall e' :: e' in Entries(h) ==> e.0 <= e'.0) && Ordered(Pop(h).1, e.0)
  {
    if h.Node? {
      assert (h.key, h.value) in Entries(h);
      OrderedMinimum(h, h.key);
      MergeEntries(h.left, h.right);
      MergeOrdered(h.left, h.right, h.key);
    }
  }

  lemma PushAddsOne<V>(v: V, h: Heap<V>, low: int)
    requires Ordered(h, low)
    ensures Entries(Push(v, h)) == Entries(h) + multiset{(1, v)} && Ordered(Push(v, h), if low < 1 then low else 1)
  {
    MergeEntries(h, Node(Empty, 1, v, Empty));
    OrderedLower(h, low, if low < 1 then low else 1);
    MergeOrdered(h, Node(Empty, 1, v, Empty), if low < 1 then low else 1);
  }

  // ---------------------------------------------------------------- amortised cost

  /** Calls of merge, the outermost one included. */
  function Calls<V>(h1: Heap<V>, h2: Heap<V>): nat
    decreases Size(h1) + Size(h2)
  {
    if h1.Empty? || h2.Empty? then 1
    else if h1.key <= h2.key then 1 + Calls(h1.left, h2) else 1 + Calls(h2.left, h1)
  }

  predicate LeftHeavy<V>(h: Heap<V>) {
    h.Node? && Size(h.left) > Size(h.right)
  }

  /** The potential: nodes whose left subtree is the bigger one. */
  function Heavy<V>(h: Heap<V>): nat {
    if h.Empty? then 0 else Heavy(h.left) + Heavy(h.right) + if LeftHeavy(h) then 1 else 0
  }

  /** Nodes on the left spine that are not left-heavy. */
  function Lights<V>(h: Heap<V>): nat {
    if h.Empty? then 0 else Lights(h.left) + if LeftHeavy(h) then 0 else 1
  }

  function Log2(n: nat): nat
    requires n >= 1
  {
    if n == 1 then 0 else 1 + Log2(n / 2)
  }

  lemma {:induction false} Log2Monotone(m: nat, n: nat)
    requires 1 <= m <= n
    ensures Log2(m) <= Log2(n)
  {
    if m > 1 { Log2Monotone(m / 2, n / 2); }
  }

  lemma {:induction false} LightsAtMostLog<V>(h: Heap<V>)
    ensures Lights(h) <= Log2(Size(h) + 1)
  {
    if h.Node? {
      LightsAtMostLog(h.left);
      if LeftHeavy(h) {
        Log2Monotone(Size(h.left) + 1, Size(h) + 1);
      } else {
        Log2Monotone(Size(h.left) + 1, (Size(h) + 1) / 2);
      }
    }
  }

  lemma {:induction false} MergeSize<V>(h1: Heap<V>, h2: Heap<V>)
    ensures Size(Merge(h1, h2)) == Size(h1) + Size(h2)
    decreases Size(h1) + Size(h2)
  {
    if h1.Node? && h2.Node? {
      if h1.key <= h2.key { MergeSize(h1.left, h2); } else { MergeSize(h2.left, h1); }
    }
  }

  /** A call on a left-heavy node pays for itself: the node is no longer left-heavy afterwards. */
  lemma {:induction false} CallsAreAmortised<V>(h1: Heap<V>, h2: Heap<V>)
    ensures Calls(h1, h2) + Heavy(Merge(h1, h2)) <= Heavy(h1) + Heavy(h2) + 1 + 2 * (Lights(h1) + Lights(h2))
    decreases Size(h1) + Size(h2)
  {
    if h1.Node? && h2.Node? {
      if h1.key <= h2.key {
        CallsAreAmortised(h1.left, h2);
        MergeSize(h1.left, h2);
      } else {
        CallsAreAmortised(h2.left, h1);
        MergeSize(h2.left, h1);
      }
    }
  }

  /** The logarithmic bound for one merge. */
  lemma MergeIsLogarithmic<V>(h1: Heap<V>, h2: Heap<V>)
    ensures Calls(h1, h2) + Heavy(Merge(h1, h2)) - Heavy(h1) - Heavy(h2)
         <= 1 + 2 * (Log2(Size(h1) + 1) + Log2(Size(h2) + 1))
  {
    CallsAreAmortised(h1, h2);
    LightsAtMostLog(h1);
    LightsAtMostLog(h2);
  }

  datatype Op<V> = Insert(value: V) | Extract

  function Run<V>(ops: seq<Op<V>>): Heap<V> {
    if ops == [] then Empty else
    var h := Run(ops[..|ops| - 1]);
    match ops[|ops| - 1] case Insert(v) => Push(v, h) case Extract => Pop(h).1
  }

  /** The calls of merge made by all operations. */
  function RunCalls<V>(ops: seq<Op<V>>): nat {
    if ops == [] then 0 else
    var h := Run(ops[..|ops| - 1]);
    RunCalls(ops[..|ops| - 1]) + match ops[|ops| - 1]
      case Insert(v) => Calls(h, Node(Empty, 1, v, Empty))
      case Extract => if h.Empty? then 0 else Calls(h.left, h.right)
  }

  lemma MergeCost<V>(h1: Heap<V>, h2: Heap<V>, n: nat)
    requires Size(h1) <= n && Size(h2) <= n
    ensures Calls(h1, h2) + Heavy(Merge(h1, h2)) <= Heavy(h1) + Heavy(h2) + 1 + 4 * Log2(n + 1)
  {
    hide Merge, Heavy, Calls, Log2, Size;
    MergeIsLogarithmic(h1, h2);
    Log2Monotone(Size(h1) + 1, n + 1);
    Log2Monotone(Size(h2) + 1, n + 1);
  }

  lemma PushCost<V>(v: V, h: Heap<V>, n: nat)
    requires Size(h) < n
    ensures Size(Push(v, h)) == Size(h) + 1
    ensures Calls(h, Node(Empty, 1, v, Empty)) + Heavy(Push(v, h)) <= Heavy(h) + 1 + 4 * Log2(n + 1)
  {
    var one := Node(Empty, 1, v, Empty);
    assert Size(one.left) == 0 && Size(one.right) == 0 && Heavy(one.left) == 0 && Heavy(one.right) == 0;
    assert Size(one) == 1 && Heavy(one) == 0;
    hide Merge, Heavy, Size, Calls;
    MergeCost(h, one, n);
    MergeSize(h, one);
  }

  lemma PopCost<V>(h: Heap<V>, n: nat)
    requires Size(h) <= n
    ensures Size(Pop(h).1) <= Size(h)
    ensures h.Empty? ==> Pop(h).1 == h
    ensures h.Node? ==> Calls(h.left, h.right) + Heavy(Pop(h).1) <= Heavy(h) + 1 + 4 * Log2(n + 1)
  {
    if h.Node? {
      hide Merge, Calls, Log2;
      MergeCost(h.left, h.right, n);
      MergeSize(h.left, h.right);
    }
  }

  /** A run of n operations from the empty queue makes at most n (1 + 4 log2 (n + 1)) calls. */
  lemma {:induction false} RunIsLogarithmic<V>(ops: seq<Op<V>>, n: nat, c: nat)
    requires |ops| <= n && c == 1 + 4 * Log2(n + 1)
    ensures Size(Run(ops)) <= |ops|
    ensures RunCalls(ops) + Heavy(Run(ops)) <= |ops| * c
  {
    if ops != [] {
      var rest := ops[..|ops| - 1];
      RunIsLogarithmic(rest, n, c);
      assert |ops| * c == |rest| * c + c;
      hide Merge, Heavy, Size, Calls, Log2, Pop, Push;
      match ops[|ops| - 1] {
        case Insert(v) => PushCost(v, Run(rest), n);
        case Extract => PopCost(Run(rest), n);
      }
    }
  }

  /** Every reachable queue is in order, so every pop in a run takes a minimum. */
  lemma {:induction false} RunOrdered<V>(ops: seq<Op<V>>)
    ensures Ordered(Run(ops), 1)
  {
    if ops != [] {
      var h := Run(ops[..|ops| - 1]);
      RunOrdered(ops[..|ops| - 1]);
      match ops[|ops| - 1] {
        case Insert(v) => PushAddsOne(v, h, 1);
        case Extract =>
          if h.Node? {
            PopTakesMinimum(h, 1);
            OrderedLower(Pop(h).1, h.key, 1);
          }
      }
    }
  }
}
