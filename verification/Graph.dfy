/** The depth-first traversal that lists a call graph's edges. */
module Graph {
  datatype Node = Node(ind: nat, children: seq<nat>)
  type Edge = (nat, nat)

  function Indices(nodes: seq<Node>): set<nat> { set n | n in nodes :: n.ind }

  // ---------------------------------------------------------------- the traversal

  /**
   * A node is entered once. Terminates on any graph: every entered node adds an index of the graph to the
   * visited ones.
   */
  function Visit(nodes: seq<Node>, acc: seq<Edge>, visited: set<nat>, n: Node): (r: (seq<Edge>, set<nat>))
    requires n in nodes
    ensures visited <= r.1 && n.ind in r.1
    decreases |Indices(nodes) - visited|, 0
  {
    if n.ind in visited then (acc, visited) else
    Shrinks(Indices(nodes), visited, n.ind);
    VisitChildren(nodes, acc, visited + {n.ind}, n.ind, n.children)
  }

  /** Children outside the graph are skipped. */
  function VisitChildren(nodes: seq<Node>, acc: seq<Edge>, visited: set<nat>, source: nat,
      children: seq<nat>): (r: (seq<Edge>, set<nat>))
    ensures visited <= r.1
    decreases |Indices(nodes) - visited|, |children|
  {
    if children == [] then (acc, visited) else
    var c := children[0];
    if c < |nodes| then
      var r := Visit(nodes, [(source, nodes[c].ind)] + acc, visited, nodes[c]);
      NotMore(Indices(nodes), visited, r.1);
      VisitChildren(nodes, r.0, r.1, source, children[1..])
    else VisitChildren(nodes, acc, visited, source, children[1..])
  }

  lemma Shrinks(all: set<nat>, visited: set<nat>, i: nat)
    requires i in all && i !in visited
    ensures |all - (visited + {i})| < |all - visited|
  {
    assert all - visited == all - (visited + {i}) + {i};
  }

  lemma NotMore(all: set<nat>, visited: set<nat>, visited': set<nat>)
    requires visited <= visited'
    ensures |all - visited'| <= |all - visited|
  {
    assert all - visited == (all - visited') + (all * visited' - visited);
  }

  /** The entry points in order, those outside the graph skipped. */
  function VisitAll(nodes: seq<Node>, entries: seq<nat>): (seq<Edge>, set<nat>) {
    if entries == [] then ([], {}) else
    var (acc, visited) := VisitAll(nodes, entries[..|entries| - 1]);
    var e := entries[|entries| - 1];
    if e < |nodes| then Visit(nodes, acc, visited, nodes[e]) else (acc, visited)
  }

  // ---------------------------------------------------------------- graphs

  predicate NoDuplicates(s: seq<nat>) { forall i, j :: 0 <= i < j < |s| ==> s[i] != s[j] }

  /** Nodes stand at their own index. */
  predicate WellFormed(nodes: seq<Node>) { forall i :: 0 <= i < |nodes| ==> nodes[i].ind == i }

  predicate IsEdge(nodes: seq<Node>, s: nat, t: nat) {
    s < |nodes| && t < |nodes| && t in nodes[s].children
  }

  predicate Path(nodes: seq<Node>, p: seq<nat>) {
    |p| > 0 && forall i :: 0 <= i < |p| - 1 ==> IsEdge(nodes, p[i], p[i + 1])
  }

  ghost predicate Reachable(nodes: seq<Node>, entries: seq<nat>, s: nat) {
    exists p :: Path(nodes, p) && p[0] in entries && p[0] < |nodes| && p[|p| - 1] == s
  }

  // ---------------------------------------------------------------- which edges are listed

  /** How often an edge is listed: as often as its source lists it, if the source has just been entered. */
  function Listed(nodes: seq<Node>, before: set<nat>, after: set<nat>, e: Edge): nat {
    if e.0 in after && e.0 !in before && e.0 < |nodes| && e.1 < |nodes| then multiset(nodes[e.0].children)[e.1] else 0
  }

  function From(nodes: seq<Node>, source: nat, children: seq<nat>, e: Edge): nat {
    if e.0 == source && e.1 < |nodes| then multiset(children)[e.1] else 0
  }

  lemma FirstCounted<T>(s: seq<T>, x: T)
    requires s != []
    ensures multiset(s)[x] == multiset(s[1..])[x] + if s[0] == x then 1 else 0
  {
    assert s == [s[0]] + s[1..];
  }

  lemma {:induction false} VisitLists(nodes: seq<Node>, acc: seq<Edge>, visited: set<nat>, n: Node, e: Edge)
    requires WellFormed(nodes) && n in nodes
    ensures var r := Visit(nodes, acc, visited, n);
      multiset(r.0)[e] == multiset(acc)[e] + Listed(nodes, visited, r.1, e)
    decreases |Indices(nodes) - visited|, 0
  {
    if n.ind !in visited {
      Shrinks(Indices(nodes), visited, n.ind);
      ChildrenList(nodes, acc, visited + {n.ind}, n.ind, n.children, e);
    }
  }

  lemma {:induction false} ChildrenList(nodes: seq<Node>, acc: seq<Edge>, visited: set<nat>, source: nat,
      children: seq<nat>, e: Edge)
    requires WellFormed(nodes) && source in visited && source < |nodes|
    ensures var r := VisitChildren(nodes, acc, visited, source, children);
      multiset(r.0)[e] == multiset(acc)[e] + Listed(nodes, visited, r.1, e) + From(nodes, source, children, e)
    decreases |Indices(nodes) - visited|, |children|
  {
    if children != [] {
      var c := children[0];
      var rest := children[1..];
      assert children == [c] + rest;
      FirstCounted(children, e.1);
      if c < |nodes| {
        var acc1 := [(source, nodes[c].ind)] + acc;
        var r := Visit(nodes, acc1, visited, nodes[c]);
        NotMore(Indices(nodes), visited, r.1);
        assert multiset(acc1)[e] == multiset(acc)[e] + if e == (source, c) then 1 else 0;
        VisitLists(nodes, acc1, visited, nodes[c], e);
        ChildrenList(nodes, r.0, r.1, source, rest, e);
      } else {
        ChildrenList(nodes, acc, visited, source, rest, e);
      }
    }
  }

  // ---------------------------------------------------------------- which nodes are entered

  /** Whatever is entered anew has all its children entered. */
  ghost predicate Closed(nodes: seq<Node>, before: set<nat>, after: set<nat>) {
    forall s, t :: s in after && s !in before && IsEdge(nodes, s, t) ==> t in after
  }

  lemma {:induction false} VisitCloses(nodes: seq<Node>, acc: seq<Edge>, visited: set<nat>, n: Node)
    requires WellFormed(nodes) && n in nodes
    ensures Closed(nodes, visited, Visit(nodes, acc, visited, n).1)
    decreases |Indices(nodes) - visited|, 0
  {
    if n.ind !in visited {
      Shrinks(Indices(nodes), visited, n.ind);
      ChildrenClose(nodes, acc, visited + {n.ind}, n.ind, n.children);
    }
  }

  lemma {:induction false} ChildrenClose(nodes: seq<Node>, acc: seq<Edge>, visited: set<nat>, source: nat,
      children: seq<nat>)
    requires WellFormed(nodes)
    ensures var after := VisitChildren(nodes, acc, visited, source, children).1;
      Closed(nodes, visited, after) && forall c <- children :: c < |nodes| ==> c in after
    decreases |Indices(nodes) - visited|, |children|
  {
    if children != [] {
      var c := children[0];
      if c < |nodes| {
        var acc1 := [(source, nodes[c].ind)] + acc;
        var r := Visit(nodes, acc1, visited, nodes[c]);
        NotMore(Indices(nodes), visited, r.1);
        VisitCloses(nodes, acc1, visited, nodes[c]);
        ChildrenClose(nodes, r.0, r.1, source, children[1..]);
      } else {
        ChildrenClose(nodes, acc, visited, source, children[1..]);
      }
    }
  }

  /** Nothing is entered that a set closed under edges does not hold. */
  lemma {:induction false} VisitStaysIn(nodes: seq<Node>, acc: seq<Edge>, visited: set<nat>, n: Node,
      inside: nat -> bool)
    requires WellFormed(nodes) && n in nodes && inside(n.ind)
    requires forall s, t :: inside(s) && IsEdge(nodes, s, t) ==> inside(t)
    ensures forall s :: s in Visit(nodes, acc, visited, n).1 ==> s in visited || inside(s)
    decreases |Indices(nodes) - visited|, 0
  {
    if n.ind !in visited {
      Shrinks(Indices(nodes), visited, n.ind);
      ChildrenStayIn(nodes, acc, visited + {n.ind}, n.ind, n.children, inside);
    }
  }

  lemma {:induction false} ChildrenStayIn(nodes: seq<Node>, acc: seq<Edge>, visited: set<nat>, source: nat,
      children: seq<nat>, inside: nat -> bool)
    requires WellFormed(nodes) && forall c <- children :: c < |nodes| ==> inside(c)
    requires forall s, t :: inside(s) && IsEdge(nodes, s, t) ==> inside(t)
    ensures forall s :: s in VisitChildren(nodes, acc, visited, source, children).1 ==> s in visited || inside(s)
    decreases |Indices(nodes) - visited|, |children|
  {
    if children != [] {
      var c := children[0];
      if c < |nodes| {
        var acc1 := [(source, nodes[c].ind)] + acc;
        var r := Visit(nodes, acc1, visited, nodes[c]);
        NotMore(Indices(nodes), visited, r.1);
        VisitStaysIn(nodes, acc1, visited, nodes[c], inside);
        ChildrenStayIn(nodes, r.0, r.1, source, children[1..], inside);
      } else {
        ChildrenStayIn(nodes, acc, visited, source, children[1..], inside);
      }
    }
  }

  // ---------------------------------------------------------------- the whole traversal

  lemma ReachableStep(nodes: seq<Node>, entries: seq<nat>, s: nat, t: nat)
    requires Reachable(nodes, entries, s) && IsEdge(nodes, s, t)
    ensures Reachable(nodes, entries, t)
  {
    var p :| Path(nodes, p) && p[0] in entries && p[0] < |nodes| && p[|p| - 1] == s;
    var q := p + [t];
    assert Path(nodes, q) && q[0] in entries && q[|q| - 1] == t;
  }

  lemma EntryReachable(nodes: seq<Node>, entries: seq<nat>, e: nat)
    requires e in entries && e < |nodes|
    ensures Reachable(nodes, entries, e)
  {
    var p := [e];
    assert Path(nodes, p) && p[0] in entries && p[|p| - 1] == e;
  }

  lemma ReachableMore(nodes: seq<Node>, entries: seq<nat>, more: seq<nat>, s: nat)
    requires Reachable(nodes, entries, s) && forall e <- entries :: e in more
    ensures Reachable(nodes, more, s)
  {
  }

  /** Everything an entered node leads to is entered. */
  lemma {:induction false} EnteredClosed(nodes: seq<Node>, entries: seq<nat>)
    requires WellFormed(nodes)
    ensures Closed(nodes, {}, VisitAll(nodes, entries).1)
  {
    if entries != [] {
      var rest := entries[..|entries| - 1];
      var e := entries[|entries| - 1];
      EnteredClosed(nodes, rest);
      var (acc, visited) := VisitAll(nodes, rest);
      if e < |nodes| { VisitCloses(nodes, acc, visited, nodes[e]); }
    }
  }

  lemma {:induction false} EntriesEntered(nodes: seq<Node>, entries: seq<nat>)
    requires WellFormed(nodes)
    ensures forall e <- entries :: e < |nodes| ==> e in VisitAll(nodes, entries).1
  {
    if entries != [] {
      EntriesEntered(nodes, entries[..|entries| - 1]);
    }
  }

  lemma {:induction false} EnteredReachable(nodes: seq<Node>, entries: seq<nat>)
    requires WellFormed(nodes)
    ensures forall s <- VisitAll(nodes, entries).1 :: Reachable(nodes, entries, s)
  {
    if entries != [] {
      var rest := entries[..|entries| - 1];
      var e := entries[|entries| - 1];
      EnteredReachable(nodes, rest);
      var (acc, visited) := VisitAll(nodes, rest);
      forall s <- visited ensures Reachable(nodes, entries, s) { ReachableMore(nodes, rest, entries, s); }
      if e < |nodes| {
        EntryReachable(nodes, entries, e);
        VisitStaysReachable(nodes, acc, visited, e, entries);
      }
    }
  }

  lemma VisitStaysReachable(nodes: seq<Node>, acc: seq<Edge>, visited: set<nat>, e: nat, entries: seq<nat>)
    requires WellFormed(nodes) && e < |nodes| && Reachable(nodes, entries, e)
    ensures forall s <- Visit(nodes, acc, visited, nodes[e]).1 :: s in visited || Reachable(nodes, entries, s)
  {
    forall s, t | Reachable(nodes, entries, s) && IsEdge(nodes, s, t) ensures Reachable(nodes, entries, t) {
      ReachableStep(nodes, entries, s, t);
    }
    VisitStaysIn(nodes, acc, visited, nodes[e], (s: nat) => Reachable(nodes, entries, s));
  }

  lemma {:induction false} PathStaysIn(nodes: seq<Node>, p: seq<nat>, visited: set<nat>)
    requires Path(nodes, p) && p[0] in visited && Closed(nodes, {}, visited)
    ensures p[|p| - 1] in visited
  {
    if |p| > 1 {
      assert IsEdge(nodes, p[0], p[0 + 1]);
      forall i | 0 <= i < |p[1..]| - 1 ensures IsEdge(nodes, p[1..][i], p[1..][i + 1]) {
        assert IsEdge(nodes, p[i + 1], p[i + 1 + 1]);
      }
      PathStaysIn(nodes, p[1..], visited);
    }
  }

  lemma {:induction false} AllListed(nodes: seq<Node>, entries: seq<nat>, e: Edge)
    requires WellFormed(nodes)
    ensures multiset(VisitAll(nodes, entries).0)[e] == Listed(nodes, {}, VisitAll(nodes, entries).1, e)
  {
    if entries != [] {
      var rest := entries[..|entries| - 1];
      var last := entries[|entries| - 1];
      AllListed(nodes, rest, e);
      var (acc, visited) := VisitAll(nodes, rest);
      if last < |nodes| { VisitLists(nodes, acc, visited, nodes[last], e); }
    }
  }

  /** On any graph, cyclic or not: the nodes entered are the reachable ones. */
  lemma EnteredIffReachable(nodes: seq<Node>, entries: seq<nat>, s: nat)
    requires WellFormed(nodes)
    ensures s in VisitAll(nodes, entries).1 <==> Reachable(nodes, entries, s)
  {
    EnteredReachable(nodes, entries);
    EntriesEntered(nodes, entries);
    EnteredClosed(nodes, entries);
    if Reachable(nodes, entries, s) {
      var p :| Path(nodes, p) && p[0] in entries && p[0] < |nodes| && p[|p| - 1] == s;
      PathStaysIn(nodes, p, VisitAll(nodes, entries).1);
    }
  }

  /** An edge is listed as often as a reachable source lists its target, and not at all from an unreachable one. */
  lemma EdgesListed(nodes: seq<Node>, entries: seq<nat>, e: Edge)
    requires WellFormed(nodes)
    ensures multiset(VisitAll(nodes, entries).0)[e] ==
      if IsEdge(nodes, e.0, e.1) && Reachable(nodes, entries, e.0) then multiset(nodes[e.0].children)[e.1] else 0
  {
    hide VisitAll, Reachable;
    AllListed(nodes, entries, e);
    EnteredIffReachable(nodes, entries, e.0);
  }

  lemma {:induction false} OnceInChildren(s: seq<nat>, x: nat)
    requires NoDuplicates(s) && x in s
    ensures multiset(s)[x] == 1
  {
    assert s == [s[0]] + s[1..];
    if x != s[0] {
      OnceInChildren(s[1..], x);
    } else {
      assert x !in s[1..];
    }
  }

  /** When children are listed once, each reachable edge is listed exactly once and nothing else is. */
  lemma EachReachableEdgeOnce(nodes: seq<Node>, entries: seq<nat>, e: Edge)
    requires WellFormed(nodes) && forall i :: 0 <= i < |nodes| ==> NoDuplicates(nodes[i].children)
    ensures multiset(VisitAll(nodes, entries).0)[e]
         == if IsEdge(nodes, e.0, e.1) && Reachable(nodes, entries, e.0) then 1 else 0
  {
    hide VisitAll, Reachable;
    EdgesListed(nodes, entries, e);
    if IsEdge(nodes, e.0, e.1) { OnceInChildren(nodes[e.0].children, e.1); }
  }
}
