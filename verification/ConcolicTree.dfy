/**
 * The exploration tree as it is kept in memory: nodes are objects whose fields are assigned in place. Each
 * carries the value it stands for, and every method is tied to the function on values that specifies it.
 */
module ConcolicTree {
  import opened Prelude
  import V = ExplorationTree

  datatype Node =
    | Select(cond: V.Expr, ifTrue: Tree, ifFalse: Tree)
    | SelectI32(expr: V.Expr, branches: seq<(int, Tree)>)
    | Assume(cond: V.Expr, cont: Tree)
    | Assert(cond: V.Expr, cont: Tree, status: V.Status)
    | Unreachable
    | NotExplored
    | BeingExplored
    | Explored
  {
    function Kids(): seq<Tree> {
      match this
      case Select(_, a, b) => [a, b]
      case SelectI32(_, branches) => seq(|branches|, i requires 0 <= i < |branches| => branches[i].1)
      case Assume(_, cont) => [cont]
      case Assert(_, cont, _) => [cont]
      case _ => []
    }

    /** The node with the given values for its children. */
    ghost function With(kids: seq<V.Tree>): V.Node
      requires |kids| == |Kids()|
    {
      match this
      case Select(cond, _, _) => V.Select(cond, kids[0], kids[1])
      case SelectI32(expr, branches) =>
        V.SelectI32(expr, seq(|branches|, i requires 0 <= i < |branches| => (branches[i].0, kids[i])))
      case Assume(cond, _) => V.Assume(cond, kids[0])
      case Assert(cond, _, status) => V.Assert(cond, kids[0], status)
      case Unreachable => V.Unreachable
      case NotExplored => V.NotExplored
      case BeingExplored => V.BeingExplored
      case Explored => V.Explored
    }
  }

  ghost function KidsOf(node: V.Node): seq<V.Tree> {
    match node
    case Select(_, a, b) => [a, b]
    case SelectI32(_, branches) => seq(|branches|, i requires 0 <= i < |branches| => branches[i].1)
    case Assume(_, cont) => [cont]
    case Assert(_, cont, _) => [cont]
    case _ => []
  }

  lemma KidsOfWith(node: Node, kids: seq<V.Tree>)
    requires |kids| == |node.Kids()|
    ensures KidsOf(node.With(kids)) == kids
  {
  }

  /** The node with another tree for child i. */
  ghost function ReplaceKid(node: V.Node, i: nat, b: V.Tree): V.Node
    requires i < |KidsOf(node)|
  {
    match node
    case Select(cond, x, y) => if i == 0 then V.Select(cond, b, y) else V.Select(cond, x, b)
    case SelectI32(expr, branches) => V.SelectI32(expr, branches[i := (branches[i].0, b)])
    case Assume(cond, _) => V.Assume(cond, b)
    case Assert(cond, _, status) => V.Assert(cond, b, status)
  }

  lemma WithReplaced(node: Node, kids: seq<V.Tree>, i: nat, b: V.Tree)
    requires |kids| == |node.Kids()| && i < |kids|
    ensures i < |KidsOf(node.With(kids))| && node.With(kids[i := b]) == ReplaceKid(node.With(kids), i, b)
  {
  }

  // ---------------------------------------------------------------- a step of add_trace on values

  /**
   * The node as a trace leaves it before descending, and the child it descends to; none where the trace
   * does not fit.
   */
  ghost function Prepared(path: V.Path, node: V.Node, trace: V.Trace): (r: Option<(V.Node, nat)>)
    requires trace.remaining != []
    ensures r.Some? ==> r.value.1 < |KidsOf(r.value.0)|
  {
    var head := trace.remaining[0];
    match (node, head)
    case (Select(cond, _, _), OnBool(v, cond')) => if cond == cond' then Some((node, if v then 0 else 1)) else None
    case (SelectI32(expr, branches), OnInt(v, expr')) =>
      if expr != expr' then None else
      (match V.FindBranch(branches, v)
       case Some(i) => Some((node, i))
       case None => Some((V.SelectI32(expr, branches + [(v, V.FreshTree([head] + path))]), |branches|)))
    case (Assume(cond, _), Assuming(cond')) => if cond == cond' then Some((node, 0)) else None
    case (Assert(cond, cont, status), Asserting(cond')) =>
      if cond != cond' then None else
      var refuted := |trace.remaining| == 1 && trace.end.AssertFail?;
      Some((V.Assert(cond, cont, if refuted then V.Refuted(trace.assignments) else status), 0))
    case _ => None
  }

  lemma AddTraceStep(path: V.Path, t: V.Tree, trace: V.Trace)
    requires trace.remaining != []
    ensures var head, rest := trace.remaining[0], trace.(remaining := trace.remaining[1..]);
      var u := V.TryInitialize(path, t, head);
      V.AddTrace(path, t, trace) == match Prepared(path, u.node, trace)
        case None => None
        case Some((n, i)) => match V.AddTrace([head] + path, KidsOf(n)[i], rest)
          case None => None
          case Some(b) => Some(V.UpdateNode(u, ReplaceKid(n, i, b)))
  {
  }

  /** Separate trees within fp. */
  ghost predicate Forest(kids: seq<Tree>, fp: set<Tree>)
    reads fp
    decreases fp, 0
  {
    && (forall i :: 0 <= i < |kids| ==> kids[i] in fp && kids[i].below < fp && kids[i].Valid())
    && (forall i, j :: 0 <= i < j < |kids| ==> kids[i].below + {kids[i]} !! kids[j].below + {kids[j]})
  }

  /** The values trees of a forest stand for. */
  ghost function Shapes(kids: seq<Tree>, fp: set<Tree>): (r: seq<V.Tree>)
    requires forall k <- kids :: k in fp
    reads fp
    ensures |r| == |kids| && forall i :: 0 <= i < |kids| ==> r[i] == kids[i].shape
  {
    seq(|kids|, i requires 0 <= i < |kids| reads fp => kids[i].shape)
  }

  class Tree {
    var node: Node
    var unexplored: nat
    const pc: V.Path
    var ends: seq<(V.EndOfTrace, V.Assignments)>
    /** The nodes below this one, and the value this one stands for. */
    ghost var below: set<Tree>
    ghost var shape: V.Tree

    ghost predicate Valid()
      reads this, below
      decreases below, 1
    {
      && this !in below && Forest(node.Kids(), below)
      && shape == V.Tree(node.With(Shapes(node.Kids(), below)), unexplored, pc, ends)
    }

    /** fresh_tree */
    constructor (pc: V.Path)
      ensures Valid() && below == {} && shape == V.FreshTree(pc)
    {
      node, unexplored, this.pc, ends := NotExplored, 1, pc, [];
      below, shape := {}, V.FreshTree(pc);
    }

    method CountUnexplored() returns (n: nat)
      requires Valid()
      ensures n == V.CountUnexplored(shape.node)
    {
      ghost var kids := node.Kids();
      ghost var shapes := Shapes(kids, below);
      forall i | 0 <= i < |kids| ensures shapes[i].unexplored == kids[i].unexplored {
        assert kids[i].Valid();
      }
      if node.Select? {
        assert kids[0] == node.ifTrue && kids[1] == node.ifFalse
          && shape.node == V.Select(node.cond, shapes[0], shapes[1]);
        n := node.ifTrue.unexplored + node.ifFalse.unexplored;
      } else if node.SelectI32? {
        n := 0;
        var branches := node.branches;
        for i := 0 to |branches|
          invariant n == V.SumUnexplored(shape.node.branches[..i])
        {
          assert shape.node.branches[..i + 1][..i] == shape.node.branches[..i];
          assert kids[i] == branches[i].1 && shape.node.branches[i].1 == shapes[i];
          n := n + branches[i].1.unexplored;
        }
        assert shape.node.branches[..|branches|] == shape.node.branches;
      } else if node.Assume? || node.Assert? {
        assert kids[0] == node.cont && shape.node.cont == shapes[0];
        n := node.cont.unexplored;
      } else {
        n := if node.NotExplored? then 1 else 0;
      }
    }

    method UpdateUnexplored()
      requires Valid()
      modifies this
      ensures Valid() && below == old(below) && node == old(node)
      ensures shape == V.UpdateNode(old(shape), old(shape.node))
    {
      hide Forest, Shapes, V.CountUnexplored;
      unexplored := CountUnexplored();
      shape := shape.(unexplored := unexplored);
    }

    /** update_node, for a node whose children stand in fp. */
    method UpdateNode(n: Node, ghost fp: set<Tree>)
      requires Valid() && this !in fp && Forest(n.Kids(), fp)
      modifies this
      ensures Valid() && below == fp && node == n
      ensures shape == V.UpdateNode(old(shape), n.With(old(Shapes(n.Kids(), fp))))
    {
      hide Shapes, V.CountUnexplored;
      node := n;
      below := fp;
      shape := shape.(node := n.With(Shapes(n.Kids(), fp)));
      UpdateUnexplored();
    }

    method EndTrace(trace: V.Trace) returns (ok: bool)
      requires Valid()
      modifies this
      ensures ok <==> V.EndTrace(old(shape), trace).Some?
      ensures ok ==> Valid() && below == old(below) && V.EndTrace(old(shape), trace) == Some(shape)
    {
      hide Forest, Shapes, V.CountUnexplored;
      ends := [(trace.end, trace.assignments)] + ends;
      shape := shape.(ends := ends);
      if trace.end.Normal? || trace.end.TrapUnreachable? {
        if !(node.NotExplored? || node.BeingExplored?) {
          return false;
        }
        SetOnUnexplored(if trace.end.Normal? then Explored else Unreachable);
      }
      UpdateUnexplored();
      return true;
    }

    /** set_on_unexplored, its check passed. */
    method SetOnUnexplored(transition: Node)
      requires Valid() && transition.Kids() == []
      modifies this
      ensures Valid() && below == old(below) && shape == old(shape).(node := transition.With([]))
    {
      node := transition;
      shape := shape.(node := transition.With([]));
    }

    /** An unexplored node takes the form of the decision made there. */
    method TryInitialize(path: V.Path, head: V.Elt)
      requires Valid()
      modifies this
      ensures Valid() && fresh(below - old(below))
      ensures shape == V.TryInitialize(path, old(shape), head)
    {
      hide Forest, Shapes, V.CountUnexplored;
      if node.NotExplored? || node.BeingExplored? {
        var n, fp := NewNode(path, head);
        UpdateNode(n, fp);
      }
    }

    method AddBranch(v: int, path: V.Path)
      requires Valid() && node.SelectI32?
      modifies this
      ensures Valid() && fresh(below - old(below))
      ensures old(shape).node.SelectI32?
      ensures shape == V.UpdateNode(old(shape),
        V.SelectI32(old(shape).node.expr, old(shape).node.branches + [(v, V.FreshTree(path))]))
    {
      hide V.CountUnexplored;
      var t := new Tree(path);
      var n := SelectI32(node.expr, node.branches + [(v, t)]);
      assert n.Kids() == node.Kids() + [t];
      assert Forest(n.Kids(), below + {t});
      ghost var shapes := Shapes(node.Kids(), below);
      assert Shapes(n.Kids(), below + {t}) == shapes + [V.FreshTree(path)];
      assert n.With(shapes + [V.FreshTree(path)]).branches == node.With(shapes).branches + [(v, V.FreshTree(path))];
      hide Forest;
      UpdateNode(n, below + {t});
    }

    /** What add_trace does at a node before it descends: a missing branch is added, a failed assertion recorded. */
    method Prepare(path: V.Path, trace: V.Trace) returns (at: Option<nat>)
      requires Valid() && trace.remaining != []
      modifies this
      ensures Valid() && fresh(below - old(below))
      ensures at.None? <==> Prepared(path, old(shape).node, trace).None?
      ensures at.Some? ==> Prepared(path, old(shape).node, trace) == Some((shape.node, at.value))
      ensures shape.pc == old(shape).pc && shape.ends == old(shape).ends
    {
      hide Forest, Shapes, V.CountUnexplored, KidsOf;
      var head := trace.remaining[0];
      if node.Select? && head.OnBool? && node.cond == head.cond {
        return Some(if head.taken then 0 else 1);
      } else if node.SelectI32? && head.OnInt? && node.expr == head.expr {
        SameKeys(node.branches, shape.node.branches, head.chosen);
        at := V.FindBranch(node.branches, head.chosen);
        if at.None? {
          at := Some(|node.branches|);
          AddBranch(head.chosen, [head] + path);
        }
      } else if node.Assume? && head.Assuming? && node.cond == head.cond {
        return Some(0);
      } else if node.Assert? && head.Asserting? && node.cond == head.cond {
        if |trace.remaining| == 1 && trace.end.AssertFail? {
          node := node.(status := V.Refuted(trace.assignments));
          shape := shape.(node := shape.node.(status := V.Refuted(trace.assignments)));
        }
        return Some(0);
      } else {
        return None;
      }
    }

    /** Add a trace below child i, and refresh the counter of this node. */
    method AddToKid(i: nat, path: V.Path, trace: V.Trace) returns (ok: bool)
      requires Valid() && i < |KidsOf(shape.node)|
      modifies this, below
      ensures ok <==> V.AddTrace(path, KidsOf(old(shape.node))[i], trace).Some?
      ensures ok ==> Valid() && fresh(below - old(below))
      ensures ok ==> shape == V.UpdateNode(old(shape),
        ReplaceKid(old(shape.node), i, V.AddTrace(path, KidsOf(old(shape.node))[i], trace).value))
      decreases |trace.remaining|, 1
    {
      hide V.AddTrace, V.CountUnexplored, Node.Kids, Node.With, KidsOf, ReplaceKid;
      var kids := node.Kids();
      ghost var shapes := Shapes(kids, below);
      KidsOfWith(node, shapes);
      ok := kids[i].AddTrace(path, trace);
      if !ok {
        return;
      }
      assert Forest(kids, below + kids[i].below);
      below := below + kids[i].below;
      assert Shapes(kids, below) == shapes[i := kids[i].shape];
      WithReplaced(node, shapes, i, kids[i].shape);
      shape := shape.(node := node.With(Shapes(kids, below)));
      hide Forest, Shapes;
      UpdateUnexplored();
    }

    /**
     * Adding a trace in place. On failure an assertion stops the program, and nothing is promised. The
     * counters on the way are refreshed from the deepest node up.
     */
    method AddTrace(path: V.Path, trace: V.Trace) returns (ok: bool)
      requires Valid()
      modifies this, below
      ensures ok <==> V.AddTrace(path, old(shape), trace).Some?
      ensures ok ==> Valid() && fresh(below - old(below))
      ensures ok ==> V.AddTrace(path, old(shape), trace) == Some(shape)
      decreases |trace.remaining|, 0
    {
      hide Forest, Shapes, V.CountUnexplored, V.TryInitialize, KidsOf, ReplaceKid, Prepared;
      if trace.remaining == [] {
        ok := EndTrace(trace);
        return;
      }
      var head := trace.remaining[0];
      AddTraceStep(path, shape, trace);
      TryInitialize(path, head);
      var at := Prepare(path, trace);
      if at.None? {
        return false;
      }
      ok := AddToKid(at.value, [head] + path, trace.(remaining := trace.remaining[1..]));
    }
  }

  lemma {:induction false} SameKeys<A, B>(a: seq<(int, A)>, b: seq<(int, B)>, v: int)
    requires |a| == |b| && forall i :: 0 <= i < |a| ==> a[i].0 == b[i].0
    ensures V.FindBranch(a, v) == V.FindBranch(b, v)
  {
  }

  method NewNode(path: V.Path, head: V.Elt) returns (node: Node, ghost fp: set<Tree>)
    ensures fresh(fp) && Forest(node.Kids(), fp) && node.With(Shapes(node.Kids(), fp)) == V.NewNode(path, head)
  {
    match head
    case OnBool(_, cond) =>
      var a := new Tree([V.OnBool(true, cond)] + path);
      var b := new Tree([V.OnBool(false, cond)] + path);
      node, fp := Select(cond, a, b), {a, b};
    case OnInt(_, expr) => node, fp := SelectI32(expr, []), {};
    case Assuming(cond) =>
      var a := new Tree([head] + path);
      node, fp := Assume(cond, a), {a};
    case Asserting(cond) =>
      var a := new Tree([head] + path);
      node, fp := Assert(cond, a, V.Unknown), {a};
    case ExplicitStop => node, fp := Explored, {};
  }
}
