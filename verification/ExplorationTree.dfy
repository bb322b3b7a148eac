/**
 * The tree of paths explored by concolic execution, as a value. Every node caches the number of unexplored
 * leaves below it and keeps the path that leads to it, most recent decision first.
 */
module ExplorationTree {
  import opened Prelude

  /** Conditions and symbolic integers; only their equality matters here. */
  type Expr = nat
  type Assignments = seq<(nat, int)>

  datatype Elt =
    | OnBool(taken: bool, cond: Expr)
    | OnInt(chosen: int, expr: Expr)
    | Assuming(cond: Expr)
    | Asserting(cond: Expr)
    | ExplicitStop

  /** Most recent first. */
  type Path = seq<Elt>

  datatype EndOfTrace = AssumeFail | AssertFail | TrapUnreachable | TrapOther | Normal
  datatype Status = Unknown | Proved | Refuted(assignments: Assignments)

  datatype Tree = Tree(node: Node, unexplored: nat, pc: Path, ends: seq<(EndOfTrace, Assignments)>)
  datatype Node =
    | Select(cond: Expr, ifTrue: Tree, ifFalse: Tree)
    | SelectI32(expr: Expr, branches: seq<(int, Tree)>)
    | Assume(cond: Expr, cont: Tree)
    | Assert(cond: Expr, cont: Tree, status: Status)
    | Unreachable
    | NotExplored
    | BeingExplored
    | Explored

  // ---------------------------------------------------------------- counters

  function SumUnexplored(branches: seq<(int, Tree)>): nat {
    if branches == [] then 0 else SumUnexplored(branches[..|branches| - 1]) + branches[|branches| - 1].1.unexplored
  }

  /** From the counters of the children. */
  function CountUnexplored(node: Node): nat {
    match node
    case Select(_, t, f) => t.unexplored + f.unexplored
    case SelectI32(_, branches) => SumUnexplored(branches)
    case Assume(_, cont) => cont.unexplored
    case Assert(_, cont, _) => cont.unexplored
    case NotExplored => 1
    case Unreachable => 0
    case BeingExplored => 0
    case Explored => 0
  }

  function UpdateNode(t: Tree, node: Node): Tree {
    t.(node := node, unexplored := CountUnexplored(node))
  }

  function FreshTree(pc: Path): Tree { Tree(NotExplored, 1, pc, []) }

  function NewNode(pc: Path, head: Elt): Node {
    match head
    case OnBool(_, cond) => Select(cond, FreshTree([OnBool(true, cond)] + pc), FreshTree([OnBool(false, cond)] + pc))
    case OnInt(_, expr) => SelectI32(expr, [])
    case Assuming(cond) => Assume(cond, FreshTree([head] + pc))
    case Asserting(cond) => Assert(cond, FreshTree([head] + pc), Unknown)
    case ExplicitStop => Explored
  }

  predicate Undecided(node: Node) { node.NotExplored? || node.BeingExplored? }

  function TryInitialize(pc: Path, t: Tree, head: Elt): Tree {
    if Undecided(t.node) then UpdateNode(t, NewNode(pc, head)) else t
  }

  function FindBranch<T>(branches: seq<(int, T)>, v: int): (r: Option<nat>)
    ensures r.Some? ==> r.value < |branches| && branches[r.value].0 == v
    ensures r.Some? ==> forall j :: 0 <= j < r.value ==> branches[j].0 != v
    ensures r.None? ==> forall b <- branches :: b.0 != v
  {
    if branches == [] then None
    else if branches[0].0 == v then Some(0)
    else match FindBranch(branches[1..], v) case None => None case Some(i) => Some(i + 1)
  }

  datatype Trace = Trace(assignments: Assignments, remaining: seq<Elt>, end: EndOfTrace)

  predicate Fails(end: EndOfTrace) { !end.Normal? && !end.TrapUnreachable? }

  function EndTrace(t: Tree, trace: Trace): Option<Tree> {
    var t := t.(ends := [(trace.end, trace.assignments)] + t.ends);
    if !Fails(trace.end) then
      if Undecided(t.node)
      then Some(UpdateNode(t, if trace.end.Normal? then Explored else Unreachable)) else None
    else Some(UpdateNode(t, t.node))
  }

  /** None is a failed assertion. The counters on the way are recomputed from the deepest node up. */
  function AddTrace(pc: Path, t: Tree, trace: Trace): Option<Tree>
    decreases |trace.remaining|
  {
    if trace.remaining == [] then EndTrace(t, trace) else
    var head := trace.remaining[0];
    var rest := trace.(remaining := trace.remaining[1..]);
    var t := TryInitialize(pc, t, head);
    match (t.node, head)
    case (Select(cond, ifTrue, ifFalse), OnBool(v, cond')) =>
      if cond != cond' then None else
      (match AddTrace([head] + pc, if v then ifTrue else ifFalse, rest)
       case None => None
       case Some(b) => Some(UpdateNode(t, if v then Select(cond, b, ifFalse) else Select(cond, ifTrue, b))))
    case (SelectI32(expr, branches), OnInt(v, expr')) =>
      if expr != expr' then None else
      var at := FindBranch(branches, v);
      var branches' := if at.None? then branches + [(v, FreshTree([head] + pc))] else branches;
      var i := at.GetOr(|branches|);
      (match AddTrace([head] + pc, branches'[i].1, rest)
       case None => None
       case Some(b) => Some(UpdateNode(t, SelectI32(expr, branches'[i := (v, b)]))))
    case (Assume(cond, cont), Assuming(cond')) =>
      if cond != cond' then None else
      (match AddTrace([head] + pc, cont, rest)
       case None => None
       case Some(b) => Some(UpdateNode(t, Assume(cond, b))))
    case (Assert(cond, cont, status), Asserting(cond')) =>
      if cond != cond' then None else
      var status' := if rest.remaining == [] && trace.end.AssertFail? then Refuted(trace.assignments) else status;
      (match AddTrace([head] + pc, cont, rest)
       case None => None
       case Some(b) => Some(UpdateNode(t, Assert(cond, b, status'))))
    case _ => None
  }

  // ---------------------------------------------------------------- which traces fit

  /** A trace can begin where nothing is known yet unless one of its steps is a stop. */
  predicate StopFree(steps: seq<Elt>) { ExplicitStop !in steps }

  /**
   * A trace fits a tree when every step answers the question the tree asks at that place, down to a node that
   * is not decided yet or a new branch. One that does not fail ends in an undecided node.
   */
  predicate Fits(t: Tree, steps: seq<Elt>, end: EndOfTrace)
    decreases |steps|
  {
    if Undecided(t.node) then StopFree(steps)
    else if steps == [] then Fails(end)
    else match (t.node, steps[0])
    case (Select(cond, a, b), OnBool(v, cond')) => cond == cond' && Fits(if v then a else b, steps[1..], end)
    case (SelectI32(expr, branches), OnInt(v, expr')) =>
      && expr == expr'
      && (match FindBranch(branches, v)
          case Some(i) => Fits(branches[i].1, steps[1..], end)
          case None => StopFree(steps[1..]))
    case (Assume(cond, cont), Assuming(cond')) => cond == cond' && Fits(cont, steps[1..], end)
    case (Assert(cond, cont, _), Asserting(cond')) => cond == cond' && Fits(cont, steps[1..], end)
    case _ => false
  }

  /** Adding a trace fails an assertion exactly when the trace does not fit the tree. */
  lemma {:induction false} AddTraceFits(pc: Path, t: Tree, trace: Trace)
    ensures AddTrace(pc, t, trace).Some? <==> Fits(t, trace.remaining, trace.end)
    decreases |trace.remaining|, 1
  {
    if trace.remaining != [] {
      var head := trace.remaining[0];
      var rest := trace.(remaining := trace.remaining[1..]);
      assert trace.remaining == [head] + rest.remaining;
      var u := TryInitialize(pc, t, head);
      match (u.node, head)
      case (Select(_, a, b), OnBool(v, _)) => AddTraceFits([head] + pc, if v then a else b, rest);
      case (SelectI32(_, _), OnInt(_, _)) => AddTraceFitsBranch(pc, t, trace, head, rest, u);
      case (Assume(_, cont), Assuming(_)) => AddTraceFits([head] + pc, cont, rest);
      case (Assert(_, cont, _), Asserting(_)) => AddTraceFits([head] + pc, cont, rest);
      case _ =>
    }
  }

  lemma AddTraceFitsBranch(pc: Path, t: Tree, trace: Trace, head: Elt, rest: Trace, u: Tree)
    requires trace.remaining != [] && head == trace.remaining[0] && rest == trace.(remaining := trace.remaining[1..])
    requires u == TryInitialize(pc, t, head) && u.node.SelectI32? && head.OnInt?
    ensures AddTrace(pc, t, trace).Some? <==> Fits(t, trace.remaining, trace.end)
    decreases |trace.remaining|, 0
  {
    assert trace.remaining == [head] + rest.remaining;
    var branches := u.node.branches;
    match FindBranch(branches, head.chosen)
    case None => AddTraceFits([head] + pc, FreshTree([head] + pc), rest);
    case Some(i) =>
      AddTraceFits([head] + pc, branches[i].1, rest);
  }

  // ---------------------------------------------------------------- what adding a trace keeps

  /** The unexplored leaves. */
  function Leaves(t: Tree): nat
    decreases t, if t.node.SelectI32? then |t.node.branches| + 1 else 0
  {
    match t.node
    case Select(_, a, b) => Leaves(a) + Leaves(b)
    case SelectI32(_, branches) => SumLeaves(t, |branches|)
    case Assume(_, cont) => Leaves(cont)
    case Assert(_, cont, _) => Leaves(cont)
    case NotExplored => 1
    case _ => 0
  }

  /** Over the first n branches. */
  function SumLeaves(t: Tree, n: nat): nat
    requires t.node.SelectI32? && n <= |t.node.branches|
    decreases t, n
  {
    if n == 0 then 0 else SumLeaves(t, n - 1) + Leaves(t.node.branches[n - 1].1)
  }

  /** Every cached counter counts the unexplored leaves below. */
  predicate Counted(t: Tree) {
    t.unexplored == Leaves(t) &&
    match t.node
    case Select(_, a, b) => Counted(a) && Counted(b)
    case SelectI32(_, branches) => forall i :: 0 <= i < |branches| ==> Counted(branches[i].1)
    case Assume(_, cont) => Counted(cont)
    case Assert(_, cont, _) => Counted(cont)
    case _ => true
  }

  /** Every node keeps the path to it, and branches are for different integers. */
  predicate Placed(t: Tree, pc: Path) {
    t.pc == pc &&
    match t.node
    case Select(cond, a, b) => Placed(a, [OnBool(true, cond)] + pc) && Placed(b, [OnBool(false, cond)] + pc)
    case SelectI32(expr, branches) =>
      && (forall i :: 0 <= i < |branches| ==> Placed(branches[i].1, [OnInt(branches[i].0, expr)] + pc))
      && (forall i, j :: 0 <= i < j < |branches| ==> branches[i].0 != branches[j].0)
    case Assume(cond, cont) => Placed(cont, [Assuming(cond)] + pc)
    case Assert(cond, cont, _) => Placed(cont, [Asserting(cond)] + pc)
    case _ => true
  }

  lemma {:induction false} SumIsLeaves(t: Tree, n: nat)
    requires t.node.SelectI32? && n <= |t.node.branches|
    requires forall i :: 0 <= i < |t.node.branches| ==> Counted(t.node.branches[i].1)
    ensures SumUnexplored(t.node.branches[..n]) == SumLeaves(t, n)
  {
    if n > 0 {
      SumIsLeaves(t, n - 1);
      assert t.node.branches[..n][..n - 1] == t.node.branches[..n - 1];
      assert Counted(t.node.branches[n - 1].1);
    }
  }

  /** A node whose children are counted is counted once its own counter is refreshed. */
  lemma UpdateCounts(t: Tree, node: Node)
    requires match node
      case Select(_, a, b) => Counted(a) && Counted(b)
      case SelectI32(_, branches) => forall i :: 0 <= i < |branches| ==> Counted(branches[i].1)
      case Assume(_, cont) => Counted(cont)
      case Assert(_, cont, _) => Counted(cont)
      case _ => true
    ensures Counted(UpdateNode(t, node))
  {
    if node.SelectI32? {
      var u := UpdateNode(t, node);
      SumIsLeaves(u, |node.branches|);
      assert node.branches[..|node.branches|] == node.branches;
    }
  }

  lemma InitializeCounts(pc: Path, t: Tree, head: Elt)
    requires Counted(t)
    ensures Counted(TryInitialize(pc, t, head))
  {
  }

  lemma {:induction false} AddTraceCounts(pc: Path, t: Tree, trace: Trace)
    requires Counted(t) && AddTrace(pc, t, trace).Some?
    ensures Counted(AddTrace(pc, t, trace).value)
    decreases |trace.remaining|, 1
  {
    if trace.remaining != [] {
      var head := trace.remaining[0];
      var rest := trace.(remaining := trace.remaining[1..]);
      InitializeCounts(pc, t, head);
      var u := TryInitialize(pc, t, head);
      if u.node.Select? {
        AddTraceCounts([head] + pc, if head.taken then u.node.ifTrue else u.node.ifFalse, rest);
      } else if u.node.SelectI32? {
        AddTraceCountsBranch(pc, t, trace, head, rest, u);
      } else if u.node.Assume? {
        AddTraceCounts([head] + pc, u.node.cont, rest);
      } else if u.node.Assert? {
        AddTraceCounts([head] + pc, u.node.cont, rest);
      }
      if !u.node.SelectI32? { UpdateCounts(t, AddTrace(pc, t, trace).value.node); }
    } else {
      UpdateCounts(t.(ends := [(trace.end, trace.assignments)] + t.ends), EndTrace(t, trace).value.node);
    }
  }

  lemma AddTraceCountsBranch(pc: Path, t: Tree, trace: Trace, head: Elt, rest: Trace, u: Tree)
    requires trace.remaining != [] && head == trace.remaining[0] && rest == trace.(remaining := trace.remaining[1..])
    requires u == TryInitialize(pc, t, head) && Counted(u) && u.node.SelectI32? && AddTrace(pc, t, trace).Some?
    ensures Counted(AddTrace(pc, t, trace).value)
    decreases |trace.remaining|, 0
  {
    var at := FindBranch(u.node.branches, head.chosen);
    var branches := if at.None? then u.node.branches + [(head.chosen, FreshTree([head] + pc))] else u.node.branches;
    var i := at.GetOr(|u.node.branches|);
    assert Counted(branches[i].1);
    AddTraceCounts([head] + pc, branches[i].1, rest);
    UpdateCounts(u, AddTrace(pc, t, trace).value.node);
  }

  lemma InitializePlaces(pc: Path, t: Tree, head: Elt)
    requires Placed(t, pc)
    ensures Placed(TryInitialize(pc, t, head), pc)
  {
  }

  lemma {:induction false} AddTracePlaces(pc: Path, t: Tree, trace: Trace)
    requires Placed(t, pc) && AddTrace(pc, t, trace).Some?
    ensures Placed(AddTrace(pc, t, trace).value, pc)
    decreases |trace.remaining|, 1
  {
    if trace.remaining != [] {
      var head := trace.remaining[0];
      var rest := trace.(remaining := trace.remaining[1..]);
      InitializePlaces(pc, t, head);
      var u := TryInitialize(pc, t, head);
      if u.node.Select? {
        AddTracePlaces([head] + pc, if head.taken then u.node.ifTrue else u.node.ifFalse, rest);
      } else if u.node.SelectI32? {
        AddTracePlacesBranch(pc, t, trace, head, rest, u);
      } else if u.node.Assume? {
        AddTracePlaces([head] + pc, u.node.cont, rest);
      } else if u.node.Assert? {
        AddTracePlaces([head] + pc, u.node.cont, rest);
      }
    }
  }

  lemma AddTracePlacesBranch(pc: Path, t: Tree, trace: Trace, head: Elt, rest: Trace, u: Tree)
    requires trace.remaining != [] && head == trace.remaining[0] && rest == trace.(remaining := trace.remaining[1..])
    requires u == TryInitialize(pc, t, head) && Placed(u, pc) && u.node.SelectI32? && AddTrace(pc, t, trace).Some?
    ensures Placed(AddTrace(pc, t, trace).value, pc)
    decreases |trace.remaining|, 0
  {
    var at := FindBranch(u.node.branches, head.chosen);
    var branches := if at.None? then u.node.branches + [(head.chosen, FreshTree([head] + pc))] else u.node.branches;
    var i := at.GetOr(|u.node.branches|);
    assert Placed(branches[i].1, [head] + pc);
    AddTracePlaces([head] + pc, branches[i].1, rest);
  }

  // ---------------------------------------------------------------- where a path leads

  function Child(t: Tree, step: Elt): Option<Tree> {
    match (t.node, step)
    case (Select(cond, a, b), OnBool(v, cond')) => if cond == cond' then Some(if v then a else b) else None
    case (SelectI32(expr, branches), OnInt(v, expr')) =>
      (match FindBranch(branches, v)
       case Some(i) => if expr == expr' then Some(branches[i].1) else None
       case None => None)
    case (Assume(cond, cont), Assuming(cond')) => if cond == cond' then Some(cont) else None
    case (Assert(cond, cont, _), Asserting(cond')) => if cond == cond' then Some(cont) else None
    case _ => None
  }

  /** The node at the end of the steps, the first of them taken first. */
  function Follow(t: Tree, steps: seq<Elt>): Option<Tree> {
    if steps == [] then Some(t) else
    match Child(t, steps[0]) case None => None case Some(c) => Follow(c, steps[1..])
  }

  lemma {:induction false} FollowOneMore(t: Tree, steps: seq<Elt>, step: Elt)
    requires Follow(t, steps).Some?
    ensures Follow(t, steps + [step]) == Child(Follow(t, steps).value, step)
  {
    if steps != [] {
      assert (steps + [step])[1..] == steps[1..] + [step];
      FollowOneMore(Child(t, steps[0]).value, steps[1..], step);
    } else {
      assert [step][1..] == [];
    }
  }

  /** The node a trace ends in is there afterwards, with the end recorded. */
  lemma {:induction false} AddTraceRecords(pc: Path, t: Tree, trace: Trace)
    requires AddTrace(pc, t, trace).Some?
    ensures var leaf := Follow(AddTrace(pc, t, trace).value, trace.remaining);
      && leaf.Some? && leaf.value.ends != [] && leaf.value.ends[0] == (trace.end, trace.assignments)
      && (trace.end.Normal? ==> leaf.value.node.Explored?)
        && (trace.end.TrapUnreachable? ==> leaf.value.node.Unreachable?)
    decreases |trace.remaining|
  {
    if trace.remaining != [] {
      var head := trace.remaining[0];
      var rest := trace.(remaining := trace.remaining[1..]);
      var u := TryInitialize(pc, t, head);
      if u.node.Select? {
        AddTraceRecords([head] + pc, if head.taken then u.node.ifTrue else u.node.ifFalse, rest);
      } else if u.node.SelectI32? {
        var at := FindBranch(u.node.branches, head.chosen);
        var branches := if at.None? then u.node.branches + [(head.chosen, FreshTree([head] + pc))] else u.node.branches;
        var i := at.GetOr(|u.node.branches|);
        AddTraceRecords([head] + pc, branches[i].1, rest);
        FindUpdated(branches, i, head.chosen, AddTrace([head] + pc, branches[i].1, rest).value);
      } else if u.node.Assume? {
        AddTraceRecords([head] + pc, u.node.cont, rest);
      } else if u.node.Assert? {
        AddTraceRecords([head] + pc, u.node.cont, rest);
      }
    }
  }

  lemma {:induction false} FindUpdated(branches: seq<(int, Tree)>, i: nat, v: int, b: Tree)
    requires i < |branches| && branches[i].0 == v && forall j :: 0 <= j < i ==> branches[j].0 != v
    ensures FindBranch(branches[i := (v, b)], v) == Some(i)
  {
    if i > 0 {
      assert branches[i := (v, b)][1..] == branches[1..][i - 1 := (v, b)];
      FindUpdated(branches[1..], i - 1, v, b);
    }
  }

  /** The two part ways before either ends. */
  predicate Diverge(p: seq<Elt>, q: seq<Elt>) {
    p != [] && q != [] && (p[0] != q[0] || Diverge(p[1..], q[1..]))
  }

  lemma {:induction false} FindOther(branches: seq<(int, Tree)>, i: nat, v: int, b: Tree, v': int)
    requires i < |branches| && branches[i].0 == v && v != v'
    ensures FindBranch(branches[i := (v, b)], v') == FindBranch(branches, v')
  {
    if i > 0 {
      assert branches[i := (v, b)][1..] == branches[1..][i - 1 := (v, b)];
      FindOther(branches[1..], i - 1, v, b, v');
    }
  }

  lemma {:induction false} FindAppended(branches: seq<(int, Tree)>, v: int, b: Tree, v': int)
    requires v != v'
    ensures FindBranch(branches + [(v, b)], v') == FindBranch(branches, v')
  {
    if branches != [] {
      assert (branches + [(v, b)])[1..] == branches[1..] + [(v, b)];
      FindAppended(branches[1..], v, b, v');
    } else {
      assert [(v, b)][1..] == [];
    }
  }

  /** Nodes off the path of the trace are left as they were. */
  lemma {:induction false} AddTraceKeepsOthers(pc: Path, t: Tree, trace: Trace, p: seq<Elt>)
    requires AddTrace(pc, t, trace).Some? && Follow(t, p).Some? && Diverge(p, trace.remaining)
    ensures Follow(AddTrace(pc, t, trace).value, p) == Follow(t, p)
    decreases |trace.remaining|, 1
  {
    var head := trace.remaining[0];
    var rest := trace.(remaining := trace.remaining[1..]);
    if t.node.Select? {
      if p[0] == head {
        AddTraceKeepsOthers([head] + pc, if head.taken then t.node.ifTrue else t.node.ifFalse, rest, p[1..]);
      }
    } else if t.node.SelectI32? {
      BranchesKept(pc, t, trace, p, head, rest);
    } else if t.node.Assume? {
      AddTraceKeepsOthers([head] + pc, t.node.cont, rest, p[1..]);
    } else if t.node.Assert? {
      AddTraceKeepsOthers([head] + pc, t.node.cont, rest, p[1..]);
    }
  }

  lemma BranchesKept(pc: Path, t: Tree, trace: Trace, p: seq<Elt>, head: Elt, rest: Trace)
    requires trace.remaining != [] && head == trace.remaining[0] && rest == trace.(remaining := trace.remaining[1..])
    requires AddTrace(pc, t, trace).Some? && Follow(t, p).Some? && Diverge(p, trace.remaining) && t.node.SelectI32?
    ensures Follow(AddTrace(pc, t, trace).value, p) == Follow(t, p)
    decreases |trace.remaining|, 0
  {
    var branches, v, v' := t.node.branches, head.chosen, p[0].chosen;
    var at := FindBranch(branches, v);
    var branches' := if at.None? then branches + [(v, FreshTree([head] + pc))] else branches;
    var i := at.GetOr(|branches|);
    var b := AddTrace([head] + pc, branches'[i].1, rest).value;
    if v == v' {
      AddTraceKeepsOthers([head] + pc, branches[i].1, rest, p[1..]);
      FindUpdated(branches, i, v, b);
    } else {
      if at.None? { FindAppended(branches, v, FreshTree([head] + pc), v'); }
      FindOther(branches', i, v, b, v');
    }
  }

  // ---------------------------------------------------------------- choosing what to run next

  /** Indices of branches that still hold something unexplored. */
  function Live(branches: seq<(int, Tree)>): (r: seq<nat>)
    ensures forall i <- r :: i < |branches| && branches[i].1.unexplored > 0
    ensures forall i: nat :: i < |branches| && branches[i].1.unexplored > 0 ==> i in r
  {
    if branches == [] then [] else
    var n := |branches| - 1;
    var rest := Live(branches[..n]);
    assert forall i <- rest :: branches[..n][i] == branches[i];
    if branches[n].1.unexplored > 0 then rest + [n] else rest
  }

  function PickLive(branches: seq<(int, Tree)>, coin: nat): (r: Option<nat>)
    ensures r.Some? ==> r.value < |branches| && branches[r.value].1.unexplored > 0
    ensures r.None? <==> Live(branches) == []
  {
    var live := Live(branches);
    if live == [] then None else
    assert live[coin % |live|] in live;
    Some(live[coin % |live|])
  }

  /** A path to run and the nodes on the way to it, the last first. The coins are the random choices. */
  function FindNode(t: Tree, trail: seq<Tree>, coins: nat -> nat): Option<(Path, seq<Tree>)> {
    match t.node
    case NotExplored => Some((t.pc, [t] + trail))
    case Select(_, a, b) =>
      if a.unexplored == 0 && b.unexplored == 0 then None
      else if a.unexplored == 0 then FindNode(b, [t] + trail, coins)
      else if b.unexplored == 0 then FindNode(a, [t] + trail, coins)
      else FindNode(if coins(|trail|) % 2 == 1 then a else b, [t] + trail, coins)
    case SelectI32(_, branches) =>
      (match PickLive(branches, coins(|trail|))
       case None => None
       case Some(i) => FindNode(branches[i].1, [t] + trail, coins))
    case Assume(_, cont) => FindNode(cont, [t] + trail, coins)
    case Assert(cond, cont, status) =>
      if status.Unknown? then Some(([OnBool(false, cond)] + t.pc, [t] + trail)) else FindNode(cont, [t] + trail, coins)
    case Unreachable => None
    case BeingExplored => None
    case Explored => None
  }

  /** An assertion not yet decided, with nothing but assumptions and decided assertions before it. */
  predicate Pending(t: Tree) {
    match t.node
    case Assume(_, cont) => Pending(cont)
    case Assert(_, cont, status) => status.Unknown? || Pending(cont)
    case _ => false
  }

  lemma {:induction false} SumPositive(branches: seq<(int, Tree)>)
    ensures SumUnexplored(branches) > 0 <==> Live(branches) != []
  {
    if branches != [] {
      var n := |branches| - 1;
      SumPositive(branches[..n]);
      if Live(branches) != [] {
        var i := Live(branches)[0];
        if i < n { assert branches[..n][i] == branches[i]; }
      } else {
        assert n !in Live(branches);
      }
    }
  }

  /**
   * Whatever the choices: a node is found exactly when something is unexplored, or an assertion pending
   * from the root.
   */
  lemma {:induction false} FindsIffUnexplored(t: Tree, trail: seq<Tree>, coins: nat -> nat)
    requires Counted(t)
    ensures FindNode(t, trail, coins).Some? <==> t.unexplored > 0 || Pending(t)
  {
    match t.node {
      case Select(_, a, b) =>
        FindsIffUnexplored(a, [t] + trail, coins);
        FindsIffUnexplored(b, [t] + trail, coins);
      case SelectI32(_, branches) =>
        SumPositive(branches);
        SumIsLeaves(t, |branches|);
        assert branches[..|branches|] == branches;
        var i := PickLive(branches, coins(|trail|));
        if i.Some? { FindsIffUnexplored(branches[i.value].1, [t] + trail, coins); }
      case Assume(_, cont) => FindsIffUnexplored(cont, [t] + trail, coins);
      case Assert(_, cont, _) => FindsIffUnexplored(cont, [t] + trail, coins);
      case NotExplored =>
      case Unreachable =>
      case BeingExplored =>
      case Explored =>
    }
  }

  /** The path found is that of an unexplored leaf, or of the failing side of an undecided assertion. */
  ghost predicate Runnable(root: Tree, pc: Path, found: Tree) {
    && Follow(root, Reverse(found.pc)) == Some(found)
    && ((found.node.NotExplored? && pc == found.pc)
        || (found.node.Assert? && found.node.status.Unknown? && pc == [OnBool(false, found.node.cond)] + found.pc))
  }

  lemma ReverseOneMore(steps: seq<Elt>, step: Elt)
    ensures Reverse(steps + [step]) == [step] + Reverse(steps)
  {
  }

  lemma ReverseTwice(steps: seq<Elt>)
    ensures Reverse(Reverse(steps)) == steps
  {
  }

  /** One step further down, the path to the node and the node's own path still agree. */
  lemma Deeper(root: Tree, t: Tree, steps: seq<Elt>, step: Elt)
    requires Follow(root, steps) == Some(t) && Placed(t, Reverse(steps)) && Child(t, step).Some?
    ensures var c := Child(t, step).value;
      Follow(root, steps + [step]) == Some(c) && Placed(c, Reverse(steps + [step]))
  {
    FollowOneMore(root, steps, step);
    ReverseOneMore(steps, step);
  }

  lemma {:induction false} FindAt(branches: seq<(int, Tree)>, i: nat)
    requires i < |branches| && forall a, b :: 0 <= a < b < |branches| ==> branches[a].0 != branches[b].0
    ensures FindBranch(branches, branches[i].0) == Some(i)
  {
  }

  lemma {:induction false} FoundIsRunnable(root: Tree, t: Tree, steps: seq<Elt>, trail: seq<Tree>, coins: nat -> nat)
    requires Follow(root, steps) == Some(t) && Placed(t, Reverse(steps))
    ensures var r := FindNode(t, trail, coins);
      r.Some? ==> r.value.1 != [] && Runnable(root, r.value.0, r.value.1[0])
    decreases t
  {
    hide Runnable;
    match t.node {
      case NotExplored => StopsHere(root, t, steps);
      case Select(cond, a, b) =>
        Deeper(root, t, steps, OnBool(true, cond));
        Deeper(root, t, steps, OnBool(false, cond));
        FoundIsRunnable(root, a, steps + [OnBool(true, cond)], [t] + trail, coins);
        FoundIsRunnable(root, b, steps + [OnBool(false, cond)], [t] + trail, coins);
      case SelectI32(expr, branches) =>
        var i := PickLive(branches, coins(|trail|));
        if i.Some? {
          var step := OnInt(branches[i.value].0, expr);
          FindAt(branches, i.value);
          Deeper(root, t, steps, step);
          FoundIsRunnable(root, branches[i.value].1, steps + [step], [t] + trail, coins);
        }
      case Assume(cond, cont) =>
        Deeper(root, t, steps, Assuming(cond));
        FoundIsRunnable(root, cont, steps + [Assuming(cond)], [t] + trail, coins);
      case Assert(cond, cont, status) =>
        if status.Unknown? {
          StopsHere(root, t, steps);
        } else {
          Deeper(root, t, steps, Asserting(cond));
          FoundIsRunnable(root, cont, steps + [Asserting(cond)], [t] + trail, coins);
        }
      case Unreachable =>
      case BeingExplored =>
      case Explored =>
    }
  }

  lemma StopsHere(root: Tree, t: Tree, steps: seq<Elt>)
    requires Follow(root, steps) == Some(t) && t.pc == Reverse(steps)
    ensures t.node.NotExplored? ==> Runnable(root, t.pc, t)
    ensures t.node.Assert? && t.node.status.Unknown? ==> Runnable(root, [OnBool(false, t.node.cond)] + t.pc, t)
  {
    ReverseTwice(steps);
  }

  // ---------------------------------------------------------------- runs

  function AddTraces(traces: seq<Trace>): Option<Tree> {
    if traces == [] then Some(FreshTree([])) else
    match AddTraces(traces[..|traces| - 1])
    case None => None
    case Some(t) => AddTrace([], t, traces[|traces| - 1])
  }

  /** Both steps answer the same question, perhaps differently. */
  predicate SameQuestion(a: Elt, b: Elt) {
    match (a, b)
    case (OnBool(_, c), OnBool(_, d)) => c == d
    case (OnInt(_, e), OnInt(_, f)) => e == f
    case _ => a == b
  }

  /**
   * After the same answers two traces come to the same question; where one ends without failing, the other
   * ends there too and fails.
   */
  predicate Coherent(a: seq<Elt>, endA: EndOfTrace, b: seq<Elt>, endB: EndOfTrace)
    decreases |a|
  {
    if a == [] || b == [] then (a == [] && Fails(endA)) || (b == [] && Fails(endB))
    else SameQuestion(a[0], b[0]) && (a[0] == b[0] ==> Coherent(a[1..], endA, b[1..], endB))
  }

  /** The node at the top after a trace was added goes on with the question the trace came to there. */
  lemma AddTraceNode(pc: Path, t: Tree, trace: Trace)
    requires trace.remaining != [] && AddTrace(pc, t, trace).Some?
    ensures var head := trace.remaining[0]; var rest := trace.(remaining := trace.remaining[1..]);
      var u, n := TryInitialize(pc, t, head).node, AddTrace(pc, t, trace).value.node;
      match (u, head)
      case (Select(cond, a, b), OnBool(v, cond')) =>
        var r := AddTrace([head] + pc, if v then a else b, rest);
        cond == cond' && r.Some? && n == if v then Select(cond, r.value, b) else Select(cond, a, r.value)
      case (SelectI32(expr, branches), OnInt(_, expr')) => expr == expr' && n.SelectI32? && n.expr == expr
      case (Assume(cond, cont), Assuming(cond')) =>
        cond == cond' && AddTrace([head] + pc, cont, rest).Some?
        && n == Assume(cond, AddTrace([head] + pc, cont, rest).value)
      case (Assert(cond, cont, _), Asserting(cond')) =>
        cond == cond' && AddTrace([head] + pc, cont, rest).Some? && n.Assert? && n.cond == cond
        && n.cont == AddTrace([head] + pc, cont, rest).value
      case _ => false
  {
    hide TryInitialize, FindBranch;
  }

  /** An undecided node fits what its form for the first step fits, if that asks the same question. */
  lemma InitializeFits(pc: Path, t: Tree, head: Elt, steps: seq<Elt>, end: EndOfTrace)
    requires steps != [] && SameQuestion(head, steps[0]) && !head.ExplicitStop?
    ensures Fits(t, steps, end) <==> Fits(TryInitialize(pc, t, head), steps, end)
  {
    assert steps == [steps[0]] + steps[1..];
  }

  /** What fits after a trace was added is what fitted before and is coherent with it. */
  lemma {:induction false} FitsAfterwards(pc: Path, t: Tree, trace: Trace, steps: seq<Elt>, end: EndOfTrace)
    requires AddTrace(pc, t, trace).Some?
    ensures Fits(AddTrace(pc, t, trace).value, steps, end)
      <==> Fits(t, steps, end) && Coherent(trace.remaining, trace.end, steps, end)
    decreases |trace.remaining|, 2
  {
    if trace.remaining == [] {
      EndFits(t, trace, steps, end);
    } else {
      hide AddTrace, TryInitialize;
      var head := trace.remaining[0];
      AddTraceNode(pc, t, trace);
      if steps == [] {
        InitializeUndecided(pc, t, head);
      } else if SameQuestion(head, steps[0]) {
        FitsAfterwardsStep(pc, t, trace, steps, end);
      }
    }
  }

  lemma InitializeUndecided(pc: Path, t: Tree, head: Elt)
    ensures !Undecided(TryInitialize(pc, t, head).node)
    ensures !Undecided(t.node) ==> TryInitialize(pc, t, head) == t
  {
  }

  lemma EndFits(t: Tree, trace: Trace, steps: seq<Elt>, end: EndOfTrace)
    requires EndTrace(t, trace).Some?
    ensures Fits(EndTrace(t, trace).value, steps, end)
      <==> Fits(t, steps, end) && Coherent([], trace.end, steps, end)
  {
  }

  lemma FitsAfterwardsStep(pc: Path, t: Tree, trace: Trace, steps: seq<Elt>, end: EndOfTrace)
    requires trace.remaining != [] && AddTrace(pc, t, trace).Some?
    requires steps != [] && SameQuestion(trace.remaining[0], steps[0])
    ensures Fits(AddTrace(pc, t, trace).value, steps, end)
      <==> Fits(t, steps, end) && Coherent(trace.remaining, trace.end, steps, end)
    decreases |trace.remaining|, 1
  {
    hide AddTrace, TryInitialize;
    var head := trace.remaining[0];
    var rest := trace.(remaining := trace.remaining[1..]);
    AddTraceNode(pc, t, trace);
    InitializeUndecided(pc, t, head);
    InitializeFits(pc, t, head, steps, end);
    var u := TryInitialize(pc, t, head);
    match u.node
    case Select(_, a, b) => FitsAfterwards([head] + pc, if head.taken then a else b, rest, steps[1..], end);
    case SelectI32(_, _) => FitsAfterwardsBranch(pc, t, trace, u, steps, end);
    case Assume(_, cont) => FitsAfterwards([head] + pc, cont, rest, steps[1..], end);
    case Assert(_, cont, _) => FitsAfterwards([head] + pc, cont, rest, steps[1..], end);
  }

  /** The branches after a trace went into one of them, perhaps a new one. */
  lemma AddTraceBranch(pc: Path, t: Tree, trace: Trace, u: Tree)
    requires trace.remaining != [] && u == TryInitialize(pc, t, trace.remaining[0]) && AddTrace(pc, t, trace).Some?
    requires u.node.SelectI32? && trace.remaining[0].OnInt?
    ensures var head := trace.remaining[0]; var rest := trace.(remaining := trace.remaining[1..]);
      var at := FindBranch(u.node.branches, head.chosen);
      var child := if at.None? then FreshTree([head] + pc) else u.node.branches[at.value].1;
      var r := AddTrace([head] + pc, child, rest);
      && r.Some?
      && AddTrace(pc, t, trace).value.node.branches
         == if at.None? then u.node.branches + [(head.chosen, r.value)]
            else u.node.branches[at.value := (head.chosen, r.value)]
  {
    hide TryInitialize;
  }

  lemma FitsAfterwardsBranch(pc: Path, t: Tree, trace: Trace, u: Tree, steps: seq<Elt>, end: EndOfTrace)
    requires trace.remaining != [] && u == TryInitialize(pc, t, trace.remaining[0]) && AddTrace(pc, t, trace).Some?
    requires u.node.SelectI32? && trace.remaining[0].OnInt?
    requires steps != [] && SameQuestion(trace.remaining[0], steps[0])
    ensures Fits(AddTrace(pc, t, trace).value, steps, end)
      <==> Fits(u, steps, end) && Coherent(trace.remaining, trace.end, steps, end)
    decreases |trace.remaining|, 0
  {
    hide AddTrace, TryInitialize;
    var head := trace.remaining[0];
    var rest := trace.(remaining := trace.remaining[1..]);
    var branches, w := u.node.branches, steps[0].chosen;
    AddTraceNode(pc, t, trace);
    AddTraceBranch(pc, t, trace, u);
    match FindBranch(branches, head.chosen)
    case None =>
      var child := FreshTree([head] + pc);
      var b := AddTrace([head] + pc, child, rest).value;
      FitsAfterwards([head] + pc, child, rest, steps[1..], end);
      FindAfterOneMore(branches, head.chosen, b, w);
    case Some(i) =>
      var b := AddTrace([head] + pc, branches[i].1, rest).value;
      FitsAfterwards([head] + pc, branches[i].1, rest, steps[1..], end);
      FindAfterwards(branches, i, b, w);
  }

  /** Replacing what the first branch for its integer holds. */
  lemma {:induction false} FindAfterwards<T>(branches: seq<(int, T)>, i: nat, b: T, v: int)
    requires i < |branches|
    ensures FindBranch(branches[i := (branches[i].0, b)], v) == FindBranch(branches, v)
  {
    var after := branches[i := (branches[i].0, b)];
    if i > 0 {
      assert after[1..] == branches[1..][i - 1 := (branches[i].0, b)];
      FindAfterwards(branches[1..], i - 1, b, v);
    } else {
      assert after[1..] == branches[1..];
    }
  }

  lemma {:induction false} FindAfterOneMore<T>(branches: seq<(int, T)>, w: int, b: T, v: int)
    requires FindBranch(branches, w).None?
    ensures FindBranch(branches + [(w, b)], v) == if v == w then Some(|branches|) else FindBranch(branches, v)
  {
    if branches != [] {
      assert (branches + [(w, b)])[1..] == branches[1..] + [(w, b)];
      FindAfterOneMore(branches[1..], w, b, v);
    }
  }

  predicate AllCoherent(traces: seq<Trace>, trace: Trace) {
    forall a <- traces :: Coherent(a.remaining, a.end, trace.remaining, trace.end)
  }

  /** A trace fits the tree of earlier ones exactly when it has no stop and is coherent with each of them. */
  lemma {:induction false} FitsIffCoherent(traces: seq<Trace>, trace: Trace)
    requires AddTraces(traces).Some?
    ensures Fits(AddTraces(traces).value, trace.remaining, trace.end)
      <==> StopFree(trace.remaining) && AllCoherent(traces, trace)
  {
    if traces != [] {
      var n := |traces| - 1;
      hide Fits, AddTrace, Coherent, StopFree;
      FitsIffCoherent(traces[..n], trace);
      FitsAfterwards([], AddTraces(traces[..n]).value, traces[n], trace.remaining, trace.end);
      assert traces == traces[..n] + [traces[n]];
    }
  }

  /** Traces can all be added exactly when none stops explicitly and every two of them are coherent. */
  lemma {:induction false} TracesFit(traces: seq<Trace>)
    ensures AddTraces(traces).Some? <==>
      forall i :: 0 <= i < |traces| ==> StopFree(traces[i].remaining) && AllCoherent(traces[..i], traces[i])
  {
    hide Fits, AddTrace, AllCoherent, StopFree;
    if traces != [] {
      var n := |traces| - 1;
      var before, last := traces[..n], traces[n];
      TracesFit(before);
      forall i | 0 <= i < n ensures before[..i] == traces[..i] && before[i] == traces[i] { }
      if AddTraces(before).Some? {
        AddTraceFits([], AddTraces(before).value, last);
        FitsIffCoherent(before, last);
      }
    }
  }

  /**
   * After any traces that fit the tree, counters and paths are right, and searching the root finds
   * something to run whenever its counter says so.
   */
  lemma {:induction false} EveryTreeIsSound(traces: seq<Trace>, coins: nat -> nat)
    requires AddTraces(traces).Some?
    ensures var root := AddTraces(traces).value;
      && Counted(root) && Placed(root, [])
      && (root.unexplored > 0 ==> FindNode(root, [], coins).Some?)
      && (FindNode(root, [], coins).Some? ==>
            FindNode(root, [], coins).value.1 != []
              && Runnable(root, FindNode(root, [], coins).value.0, FindNode(root, [], coins).value.1[0]))
  {
    TreesAreSound(traces);
    var root := AddTraces(traces).value;
    FindsIffUnexplored(root, [], coins);
    assert Reverse<Elt>([]) == [];
    FoundIsRunnable(root, root, [], [], coins);
  }

  lemma {:induction false} TreesAreSound(traces: seq<Trace>)
    requires AddTraces(traces).Some?
    ensures Counted(AddTraces(traces).value) && Placed(AddTraces(traces).value, [])
  {
    if traces != [] {
      var t := AddTraces(traces[..|traces| - 1]).value;
      TreesAreSound(traces[..|traces| - 1]);
      AddTraceCounts([], t, traces[|traces| - 1]);
      AddTracePlaces([], t, traces[|traces| - 1]);
    }
  }
}
