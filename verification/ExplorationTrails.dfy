/**
 * What a trace leaves at every node it passes, the failed assertion refuted and the others not, and which nodes the
 * search for something to run comes back with.
 */
module ExplorationTrails {
  import opened Prelude
  import opened ExplorationTree

  // ---------------------------------------------------------------- along a trace

  /** What was at a node that may not have been there yet. */
  function EndsOf(was: Option<Tree>): seq<(EndOfTrace, Assignments)> { if was.None? then [] else was.value.ends }

  function NodeOf(was: Option<Tree>): Node { if was.None? then NotExplored else was.value.node }

  function StatusOf(was: Option<Tree>): Status { if NodeOf(was).Assert? then NodeOf(was).status else Unknown }

  /**
   * After j steps of a trace: the end is recorded at the last node and nowhere else; one that fails leaves that
   * node's form as it was; and of the assertions passed only the last step's, if it is the one that failed, is
   * refuted, by the trace's assignments.
   */
  ghost predicate Passed(was: Option<Tree>, now: Option<Tree>, trace: Trace, j: nat)
    requires j <= |trace.remaining|
  {
    var last := j == |trace.remaining|;
    && now.Some?
    && now.value.ends == (if last then [(trace.end, trace.assignments)] else []) + EndsOf(was)
    && (last && (trace.end.AssumeFail? || trace.end.AssertFail? || trace.end.TrapOther?) ==>
      now.value.node == NodeOf(was))
    && (!last && trace.remaining[j].Asserting? ==>
      && now.value.node.Assert? && now.value.node.cond == trace.remaining[j].cond
      && now.value.node.status ==
        if j == |trace.remaining| - 1 && trace.end.AssertFail? then Refuted(trace.assignments) else StatusOf(was))
  }

  lemma AtTheTop(pc: Path, t: Tree, trace: Trace)
    requires AddTrace(pc, t, trace).Some?
    ensures Passed(Some(t), Some(AddTrace(pc, t, trace).value), trace, 0)
  {
    if trace.remaining != [] { TopKept(pc, t, trace); }
  }

  lemma TopKept(pc: Path, t: Tree, trace: Trace)
    requires trace.remaining != [] && AddTrace(pc, t, trace).Some?
    ensures AddTrace(pc, t, trace).value.ends == t.ends
    ensures trace.remaining[0].Asserting? ==>
      var n := AddTrace(pc, t, trace).value.node;
      && n.Assert? && n.cond == trace.remaining[0].cond
      && n.status ==
        if |trace.remaining| == 1 && trace.end.AssertFail? then Refuted(trace.assignments) else StatusOf(Some(t))
  {
    hide FindBranch, CountUnexplored;
  }

  /** The subtree a step goes into, made if need be, and what the rest of the trace makes of it. */
  lemma OneStep(pc: Path, t: Tree, trace: Trace) returns (c: Tree)
    requires trace.remaining != [] && AddTrace(pc, t, trace).Some?
    ensures var head, rest := trace.remaining[0], trace.(remaining := trace.remaining[1..]);
      && AddTrace([head] + pc, c, rest).Some?
      && Child(AddTrace(pc, t, trace).value, head) == Some(AddTrace([head] + pc, c, rest).value)
      && (Child(t, head) == Some(c) || (Child(t, head).None? && c == FreshTree([head] + pc)))
  {
    var head, rest := trace.remaining[0], trace.(remaining := trace.remaining[1..]);
    var u := TryInitialize(pc, t, head);
    if u.node.SelectI32? {
      c := BranchStep(pc, t, trace);
    } else {
      hide FindBranch, CountUnexplored;
      c := if u.node.Select? then (if head.taken then u.node.ifTrue else u.node.ifFalse) else u.node.cont;
    }
  }

  lemma BranchStep(pc: Path, t: Tree, trace: Trace) returns (c: Tree)
    requires trace.remaining != [] && AddTrace(pc, t, trace).Some?
    requires TryInitialize(pc, t, trace.remaining[0]).node.SelectI32?
    ensures var head, rest := trace.remaining[0], trace.(remaining := trace.remaining[1..]);
      && AddTrace([head] + pc, c, rest).Some?
      && Child(AddTrace(pc, t, trace).value, head) == Some(AddTrace([head] + pc, c, rest).value)
      && (Child(t, head) == Some(c) || (Child(t, head).None? && c == FreshTree([head] + pc)))
  {
    var head, rest := trace.remaining[0], trace.(remaining := trace.remaining[1..]);
    var branches := TryInitialize(pc, t, head).node.branches;
    var at := FindBranch(branches, head.chosen);
    var branches' := if at.None? then branches + [(head.chosen, FreshTree([head] + pc))] else branches;
    var i := at.GetOr(|branches|);
    c := branches'[i].1;
    FindUpdated(branches', i, head.chosen, AddTrace([head] + pc, c, rest).value);
  }

  lemma FollowStep(t: Tree, steps: seq<Elt>, j: nat)
    requires 0 < j <= |steps|
    ensures steps[..j][0] == steps[0] && steps[..j][1..] == steps[1..][..j - 1]
    ensures Follow(t, steps[..j])
      == match Child(t, steps[0]) case None => None case Some(c) => Follow(c, steps[1..][..j - 1])
  {
  }

  lemma FreshFollow(pc: Path, steps: seq<Elt>)
    ensures EndsOf(Follow(FreshTree(pc), steps)) == [] && NodeOf(Follow(FreshTree(pc), steps)) == NotExplored
  {
  }

  /** At every node along the way. */
  lemma {:induction false} AddTracePasses(pc: Path, t: Tree, trace: Trace, j: nat)
    requires AddTrace(pc, t, trace).Some? && j <= |trace.remaining|
    ensures var steps := trace.remaining[..j];
      Passed(Follow(t, steps), Follow(AddTrace(pc, t, trace).value, steps), trace, j)
    decreases j
  {
    if j == 0 {
      AtTheTop(pc, t, trace);
    } else {
      var head, rest := trace.remaining[0], trace.(remaining := trace.remaining[1..]);
      var c := OneStep(pc, t, trace);
      FollowStep(t, trace.remaining, j);
      FollowStep(AddTrace(pc, t, trace).value, trace.remaining, j);
      AddTracePasses([head] + pc, c, rest, j - 1);
      FreshFollow([head] + pc, rest.remaining[..j - 1]);
      hide AddTrace, Follow, Child, FreshTree;
    }
  }

  // ---------------------------------------------------------------- the nodes on the way to the one found

  /** The nodes passed on these steps, the last first, without the one they end at. */
  ghost predicate IsTrail(root: Tree, steps: seq<Elt>, nodes: seq<Tree>) {
    && |nodes| == |steps|
    && forall k :: 0 <= k < |nodes| ==> Follow(root, steps[..|steps| - 1 - k]) == Some(nodes[k])
  }

  lemma TrailDeeper(root: Tree, t: Tree, steps: seq<Elt>, trail: seq<Tree>, step: Elt)
    requires IsTrail(root, steps, trail) && Follow(root, steps) == Some(t)
    ensures IsTrail(root, steps + [step], [t] + trail)
  {
    var longer, nodes := steps + [step], [t] + trail;
    forall k | 0 <= k < |nodes| ensures Follow(root, longer[..|longer| - 1 - k]) == Some(nodes[k]) {
      if k == 0 {
        assert longer[..|steps|] == steps;
      } else {
        assert longer[..|longer| - 1 - k] == steps[..|steps| - 1 - (k - 1)];
      }
    }
  }

  /** Going down one step, everything said of the node reached so far holds of the next one. */
  lemma GoDown(root: Tree, t: Tree, steps: seq<Elt>, trail: seq<Tree>, step: Elt)
    requires Follow(root, steps) == Some(t) && Placed(t, Reverse(steps)) && Child(t, step).Some?
    requires IsTrail(root, steps, trail)
    ensures var c := Child(t, step).value;
      && Follow(root, steps + [step]) == Some(c) && Placed(c, Reverse(steps + [step]))
      && IsTrail(root, steps + [step], [t] + trail)
  {
    hide Follow, Placed, IsTrail;
    Deeper(root, t, steps, step);
    TrailDeeper(root, t, steps, trail, step);
  }

  /** The search comes back with the nodes from the one found up to the root, whose counters are then refreshed. */
  lemma {:induction false} FoundTrail(root: Tree, t: Tree, steps: seq<Elt>, trail: seq<Tree>, coins: nat -> nat)
    requires Follow(root, steps) == Some(t) && Placed(t, Reverse(steps)) && IsTrail(root, steps, trail)
    ensures var r := FindNode(t, trail, coins);
      r.Some? ==> r.value.1 != [] && IsTrail(root, Reverse(r.value.1[0].pc), r.value.1[1..])
    decreases t
  {
    hide IsTrail, Follow;
    match t.node {
      case NotExplored => ReverseTwice(steps);
      case Select(cond, a, b) =>
        GoDown(root, t, steps, trail, OnBool(true, cond));
        GoDown(root, t, steps, trail, OnBool(false, cond));
        FoundTrail(root, a, steps + [OnBool(true, cond)], [t] + trail, coins);
        FoundTrail(root, b, steps + [OnBool(false, cond)], [t] + trail, coins);
      case SelectI32(expr, branches) =>
        var i := PickLive(branches, coins(|trail|));
        if i.Some? {
          var step := OnInt(branches[i.value].0, expr);
          FindAt(branches, i.value);
          GoDown(root, t, steps, trail, step);
          FoundTrail(root, branches[i.value].1, steps + [step], [t] + trail, coins);
        }
      case Assume(cond, cont) =>
        GoDown(root, t, steps, trail, Assuming(cond));
        FoundTrail(root, cont, steps + [Assuming(cond)], [t] + trail, coins);
      case Assert(cond, cont, status) =>
        if status.Unknown? {
          ReverseTwice(steps);
        } else {
          GoDown(root, t, steps, trail, Asserting(cond));
          FoundTrail(root, cont, steps + [Asserting(cond)], [t] + trail, coins);
        }
      case Unreachable =>
      case BeingExplored =>
      case Explored =>
    }
  }

  /** From the root of any tree of traces that fit. */
  lemma RootTrail(traces: seq<Trace>, coins: nat -> nat)
    requires AddTraces(traces).Some? && FindNode(AddTraces(traces).value, [], coins).Some?
    ensures var (root, nodes) := (AddTraces(traces).value, FindNode(AddTraces(traces).value, [], coins).value.1);
      && nodes != [] && |nodes| == |nodes[0].pc| + 1 && nodes[|nodes| - 1] == root
      && forall k :: 0 <= k < |nodes| ==> Follow(root, Reverse(nodes[0].pc)[..|nodes| - 1 - k]) == Some(nodes[k])
  {
    var root := AddTraces(traces).value;
    EveryTreeIsSound(traces, coins);
    assert Reverse<Elt>([]) == [];
    FoundTrail(root, root, [], [], coins);
    var nodes := FindNode(root, [], coins).value.1;
    var path := Reverse(nodes[0].pc);
    hide FindNode, AddTraces, Counted, Placed;
    forall k | 0 <= k < |nodes| ensures Follow(root, path[..|nodes| - 1 - k]) == Some(nodes[k]) {
      if k == 0 { assert path[..|nodes| - 1] == path; } else { assert nodes[k] == nodes[1..][k - 1]; }
    }
    assert path[..0] == [];
    assert Follow(root, path[..|nodes| - 1 - (|nodes| - 1)]) == Some(nodes[|nodes| - 1]);
  }
}
