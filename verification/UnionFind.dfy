/**
 * The flat union-find: every key that is not canonical is mapped straight to its canonical element, whose
 * node lists its aliases. A union relabels the aliases of the smaller class.
 */
module UnionFind {
  import opened Prelude

  datatype Node<K, A> = Node(aliases: set<K>, cardinal: nat, datum: Option<A>)
  datatype UF<K, A> = UF(canonical: map<K, K>, nodes: map<K, Node<K, A>>)

  function Empty<K, A>(): UF<K, A> { UF(map[], map[]) }

  function Find<K(==), A>(t: UF<K, A>, x: K): K {
    if x in t.canonical then t.canonical[x] else x
  }

  function NodeOf<K(==), A>(t: UF<K, A>, c: K): Node<K, A> {
    if c in t.nodes then t.nodes[c] else Node({}, 0, None)
  }

  function FindOpt<K(==), A>(t: UF<K, A>, x: K): Option<A> {
    NodeOf(t, Find(t, x)).datum
  }

  function Combine<A>(merge: (A, A) -> A, a: Option<A>, b: Option<A>): Option<A> {
    if a.None? then b else if b.None? then a else Some(merge(a.value, b.value))
  }

  function Add<K(==), A>(merge: (A, A) -> A, x: K, d: A, t: UF<K, A>): UF<K, A> {
    var c := Find(t, x);
    var node := NodeOf(t, c);
    t.(nodes := t.nodes[c := node.(datum := Combine(merge, Some(d), node.datum))])
  }

  /** Of two canonical elements, the one that stays canonical: the left unless its class is smaller. */
  function Winner<K(==), A>(t: UF<K, A>, l: K, r: K): K {
    if NodeOf(t, l).cardinal < NodeOf(t, r).cardinal then r else l
  }

  function Loser<K(==), A>(t: UF<K, A>, l: K, r: K): K {
    if NodeOf(t, l).cardinal < NodeOf(t, r).cardinal then l else r
  }

  function Relabelled<K(==)>(aliases: set<K>, c: K, canonical: map<K, K>): map<K, K> {
    canonical + map a | a in aliases :: c
  }

  /** The node of the merged class. */
  function Merged<K(==), A>(merge: (A, A) -> A, t: UF<K, A>, l: K, r: K): Node<K, A> {
    var ln, rn := NodeOf(t, l), NodeOf(t, r);
    Node({Loser(t, l, r)} + (ln.aliases + rn.aliases), ln.cardinal + rn.cardinal + 1,
      Combine(merge, ln.datum, rn.datum))
  }

  function Union<K(==), A>(merge: (A, A) -> A, x: K, y: K, t: UF<K, A>): UF<K, A> {
    var l, r := Find(t, x), Find(t, y);
    if l == r then t else
    var demoted, canon := Loser(t, l, r), Winner(t, l, r);
    var labels := Relabelled(NodeOf(t, demoted).aliases, canon, t.canonical);
    UF(labels[demoted := canon], t.nodes[canon := Merged(merge, t, l, r)] - {demoted})
  }

  // ---------------------------------------------------------------- what every operation keeps

  /** A label is a canonical element, never an alias, whose node lists the labelled key. */
  ghost predicate LabelsAreCanonical<K(!new), A>(t: UF<K, A>) {
    forall k <- t.canonical :: t.canonical[k] !in t.canonical && t.canonical[k] in t.nodes
      && k in t.nodes[t.canonical[k]].aliases
  }

  ghost predicate AliasesAreLabelled<K(!new), A>(t: UF<K, A>) {
    forall c, a {:trigger a in t.nodes[c].aliases} :: c in t.nodes && a in t.nodes[c].aliases
      ==> a in t.canonical && t.canonical[a] == c
  }

  ghost predicate CardinalsCount<K(!new), A>(t: UF<K, A>) {
    forall c <- t.nodes :: c !in t.canonical && t.nodes[c].cardinal == |t.nodes[c].aliases|
  }

  ghost predicate Inv<K(!new), A>(t: UF<K, A>) {
    LabelsAreCanonical(t) && AliasesAreLabelled(t) && CardinalsCount(t)
  }

  lemma EmptyInv<K(!new), A>()
    ensures Inv(Empty<K, A>())
  {
  }

  lemma AddInv<K(!new), A>(merge: (A, A) -> A, x: K, d: A, t: UF<K, A>)
    requires Inv(t)
    ensures Inv(Add(merge, x, d, t))
    ensures forall y :: Find(Add(merge, x, d, t), y) == Find(t, y)
  {
  }

  /**
   * The canonical element of a canonical element is itself, and classes of different canonical elements
   * share no alias.
   */
  lemma FindTwice<K(!new), A>(t: UF<K, A>, x: K)
    requires Inv(t)
    ensures Find(t, Find(t, x)) == Find(t, x) && Find(t, x) !in t.canonical
  {
  }

  /** A union moves exactly the keys of one class to the other. */
  lemma UnionFinds<K(!new), A>(merge: (A, A) -> A, x: K, y: K, t: UF<K, A>, k: K)
    requires Inv(t)
    ensures var l, r, t' := Find(t, x), Find(t, y), Union(merge, x, y, t);
      Find(t', k) == if l != r && Find(t, k) == Loser(t, l, r) then Winner(t, l, r) else Find(t, k)
  {
  }

  ghost predicate LabelsMoved<K(!new), A>(t: UF<K, A>, t': UF<K, A>, lose: K, win: K) {
    && (forall k {:trigger k in t'.canonical} :: k in t'.canonical <==> k in t.canonical || k == lose)
    && (forall k <- t'.canonical :: t'.canonical[k] == if Find(t, k) == lose then win else t.canonical[k])
  }

  ghost predicate NodesMoved<K(!new), A>(t: UF<K, A>, t': UF<K, A>, lose: K, win: K) {
    && (forall c {:trigger c in t'.nodes} :: c in t'.nodes <==> (c in t.nodes || c == win) && c != lose)
    && (forall c <- t'.nodes :: c != win ==> t'.nodes[c] == t.nodes[c])
    && lose != win && t'.nodes[win].aliases == {lose} + (NodeOf(t, lose).aliases + NodeOf(t, win).aliases)
    && t'.nodes[win].cardinal == |t'.nodes[win].aliases|
  }

  lemma UnionLabels<K(!new), A>(merge: (A, A) -> A, x: K, y: K, t: UF<K, A>, l: K, r: K)
    requires Inv(t) && l == Find(t, x) && r == Find(t, y) && l != r
    ensures LabelsMoved(t, Union(merge, x, y, t), Loser(t, l, r), Winner(t, l, r))
  {
    FindTwice(t, x);
    FindTwice(t, y);
    var lose := Loser(t, l, r);
    forall k ensures k in NodeOf(t, lose).aliases <==> k in t.canonical && t.canonical[k] == lose {
      if k in t.canonical && t.canonical[k] == lose { assert k in t.nodes[t.canonical[k]].aliases; }
    }
  }

  lemma MergedNode<K(!new), A>(merge: (A, A) -> A, t: UF<K, A>, l: K, r: K)
    requires Inv(t) && l != r && l !in t.canonical && r !in t.canonical
    ensures var node, lose := Merged(merge, t, l, r), Loser(t, l, r);
      && node.aliases == {lose} + (NodeOf(t, lose).aliases + NodeOf(t, Winner(t, l, r)).aliases)
      && node.cardinal == |node.aliases|
  {
  }

  lemma MapMoved<K(!new), V>(m: map<K, V>, win: K, v: V, lose: K)
    requires win != lose
    ensures var m' := m[win := v] - {lose};
      && (forall c {:trigger c in m'} :: c in m' <==> (c in m || c == win) && c != lose)
      && (forall c <- m' :: c != win ==> m'[c] == m[c]) && m'[win] == v
  {
  }

  lemma UnionNodes<K(!new), A>(merge: (A, A) -> A, x: K, y: K, t: UF<K, A>, l: K, r: K)
    requires Inv(t) && l == Find(t, x) && r == Find(t, y) && l != r
    ensures NodesMoved(t, Union(merge, x, y, t), Loser(t, l, r), Winner(t, l, r))
  {
    FindTwice(t, x);
    FindTwice(t, y);
    MergedNode(merge, t, l, r);
    hide Merged, Relabelled, Inv, Find;
    var lose, win := Loser(t, l, r), Winner(t, l, r);
    assert lose != win;
    hide Loser, Winner;
    MapMoved(t.nodes, win, Merged(merge, t, l, r), lose);
  }

  lemma MovedLabels<K(!new), A>(t: UF<K, A>, t': UF<K, A>, lose: K, win: K)
    requires Inv(t) && LabelsMoved(t, t', lose, win) && NodesMoved(t, t', lose, win)
    requires lose !in t.canonical && win !in t.canonical
    ensures LabelsAreCanonical(t')
  {
  }

  lemma MovedAliases<K(!new), A>(t: UF<K, A>, t': UF<K, A>, lose: K, win: K)
    requires Inv(t) && LabelsMoved(t, t', lose, win) && NodesMoved(t, t', lose, win)
    requires lose !in t.canonical && win !in t.canonical
    ensures AliasesAreLabelled(t')
  {
    forall c, a | c in t'.nodes && a in t'.nodes[c].aliases ensures a in t'.canonical && t'.canonical[a] == c {
      if c != win { assert a in t.nodes[c].aliases; }
      else if a != lose { assert a in NodeOf(t, lose).aliases || a in NodeOf(t, win).aliases; }
    }
  }

  lemma MovedCardinals<K(!new), A>(t: UF<K, A>, t': UF<K, A>, lose: K, win: K)
    requires Inv(t) && LabelsMoved(t, t', lose, win) && NodesMoved(t, t', lose, win)
    requires lose !in t.canonical && win !in t.canonical
    ensures CardinalsCount(t')
  {
  }

  /** Every operation keeps the invariant. */
  lemma UnionInv<K(!new), A>(merge: (A, A) -> A, x: K, y: K, t: UF<K, A>)
    requires Inv(t)
    ensures Inv(Union(merge, x, y, t))
  {
    var l, r, t' := Find(t, x), Find(t, y), Union(merge, x, y, t);
    if l != r {
      FindTwice(t, x);
      FindTwice(t, y);
      UnionLabels(merge, x, y, t, l, r);
      UnionNodes(merge, x, y, t, l, r);
      hide Union, LabelsMoved, NodesMoved, LabelsAreCanonical, AliasesAreLabelled, CardinalsCount;
      MovedLabels(t, t', Loser(t, l, r), Winner(t, l, r));
      MovedAliases(t, t', Loser(t, l, r), Winner(t, l, r));
      MovedCardinals(t, t', Loser(t, l, r), Winner(t, l, r));
    }
  }

  // ---------------------------------------------------------------- runs

  datatype Op<K, A> = AddDatum(key: K, datum: A) | Unite(left: K, right: K)

  function Apply<K(==), A>(merge: (A, A) -> A, op: Op<K, A>, t: UF<K, A>): UF<K, A> {
    match op
    case AddDatum(k, d) => Add(merge, k, d, t)
    case Unite(x, y) => Union(merge, x, y, t)
  }

  function But<T>(s: seq<T>): seq<T>
    requires |s| > 0
  {
    s[..|s| - 1]
  }

  function Run<K(==), A>(merge: (A, A) -> A, ops: seq<Op<K, A>>): UF<K, A> {
    if ops == [] then Empty() else Apply(merge, ops[|ops| - 1], Run(merge, But(ops)))
  }

  lemma {:induction false} RunInv<K(!new), A>(merge: (A, A) -> A, ops: seq<Op<K, A>>)
    ensures Inv(Run(merge, ops))
  {
    if ops == [] {
      EmptyInv<K, A>();
    } else {
      RunInv(merge, But(ops));
      var t := Run(merge, But(ops));
      match ops[|ops| - 1] {
        case AddDatum(k, d) => AddInv(merge, k, d, t);
        case Unite(x, y) => UnionInv(merge, x, y, t);
      }
    }
  }

  /** How one operation changes the canonical elements. */
  lemma StepFinds<K(!new), A>(merge: (A, A) -> A, op: Op<K, A>, t: UF<K, A>, k: K)
    requires Inv(t)
    ensures Find(Apply(merge, op, t), k) ==
      if op.Unite? && Find(t, op.left) != Find(t, op.right)
        && Find(t, k) == Loser(t, Find(t, op.left), Find(t, op.right))
      then Winner(t, Find(t, op.left), Find(t, op.right)) else Find(t, k)
  {
  }

  // ---------------------------------------------------------------- the least equivalence

  ghost predicate Linked<K, A>(ops: seq<Op<K, A>>, x: K, y: K) {
    Unite(x, y) in ops || Unite(y, x) in ops
  }

  ghost predicate Path<K, A>(ops: seq<Op<K, A>>, p: seq<K>) {
    |p| > 0 && forall i :: 0 <= i < |p| - 1 ==> Linked(ops, p[i], p[i + 1])
  }

  /** Related by the least equivalence that contains the unions. */
  ghost predicate Connected<K(!new), A>(ops: seq<Op<K, A>>, x: K, y: K) {
    exists p :: Path(ops, p) && p[0] == x && p[|p| - 1] == y
  }

  lemma LinkedConnects<K(!new), A>(ops: seq<Op<K, A>>, x: K, y: K)
    requires x == y || Linked(ops, x, y)
    ensures Connected(ops, x, y)
  {
    var p := if x == y then [x] else [x, y];
    assert Path(ops, p) && p[0] == x && p[|p| - 1] == y;
  }

  lemma ConnectedBack<K(!new), A>(ops: seq<Op<K, A>>, x: K, y: K)
    requires Connected(ops, x, y)
    ensures Connected(ops, y, x)
  {
    var p :| Path(ops, p) && p[0] == x && p[|p| - 1] == y;
    var q := Reverse(p);
    forall i | 0 <= i < |q| - 1 ensures Linked(ops, q[i], q[i + 1]) {
      assert Linked(ops, p[|p| - 2 - i], p[|p| - 2 - i + 1]);
    }
    assert Path(ops, q) && q[0] == y && q[|q| - 1] == x;
  }

  lemma ConnectedOn<K(!new), A>(ops: seq<Op<K, A>>, x: K, y: K, z: K)
    requires Connected(ops, x, y) && Connected(ops, y, z)
    ensures Connected(ops, x, z)
  {
    var p :| Path(ops, p) && p[0] == x && p[|p| - 1] == y;
    var q :| Path(ops, q) && q[0] == y && q[|q| - 1] == z;
    var pq := p + q[1..];
    forall i | 0 <= i < |pq| - 1 ensures Linked(ops, pq[i], pq[i + 1]) {
      if i < |p| - 1 { assert Linked(ops, p[i], p[i + 1]); }
      else { assert Linked(ops, q[i - (|p| - 1)], q[i - (|p| - 1) + 1]); }
    }
    assert Path(ops, pq) && pq[0] == x && pq[|pq| - 1] == z;
  }

  lemma ConnectedLater<K(!new), A>(ops: seq<Op<K, A>>, x: K, y: K)
    requires |ops| > 0 && Connected(But(ops), x, y)
    ensures Connected(ops, x, y)
  {
  }

  lemma {:induction false} SameIsConnected<K(!new), A>(merge: (A, A) -> A, ops: seq<Op<K, A>>, x: K, y: K)
    requires Find(Run(merge, ops), x) == Find(Run(merge, ops), y)
    ensures Connected(ops, x, y)
    decreases |ops|, 1
  {
    hide Connected;
    if ops == [] {
      LinkedConnects(ops, x, y);
    } else {
      var t, op := Run(merge, But(ops)), ops[|ops| - 1];
      RunInv(merge, But(ops));
      StepFinds(merge, op, t, x);
      StepFinds(merge, op, t, y);
      hide Inv, Find, Apply, Run, Loser, Winner;
      if Find(t, x) == Find(t, y) {
        SameIsConnected(merge, But(ops), x, y);
        ConnectedLater(ops, x, y);
      } else {
        assert op.Unite?;
        LinkedConnects(ops, op.left, op.right);
        if Find(t, x) == Find(t, op.left) {
          JoinedAt(merge, ops, x, op.left, op.right, y);
        } else {
          ConnectedBack(ops, op.left, op.right);
          JoinedAt(merge, ops, x, op.right, op.left, y);
        }
      }
    }
  }

  lemma JoinedAt<K(!new), A>(merge: (A, A) -> A, ops: seq<Op<K, A>>, x: K, a: K, b: K, y: K)
    requires |ops| > 0 && Connected(ops, a, b)
    requires Find(Run(merge, But(ops)), x) == Find(Run(merge, But(ops)), a)
      && Find(Run(merge, But(ops)), b) == Find(Run(merge, But(ops)), y)
    ensures Connected(ops, x, y)
    decreases |ops|, 0
  {
    hide Connected, Run;
    SameIsConnected(merge, But(ops), x, a);
    SameIsConnected(merge, But(ops), b, y);
    ConnectedLater(ops, x, a);
    ConnectedLater(ops, b, y);
    ConnectedOn(ops, x, a, b);
    ConnectedOn(ops, x, b, y);
  }

  lemma {:induction false} LinkedIsSame<K(!new), A>(merge: (A, A) -> A, ops: seq<Op<K, A>>, x: K, y: K)
    requires Linked(ops, x, y)
    ensures Find(Run(merge, ops), x) == Find(Run(merge, ops), y)
  {
    var t, op := Run(merge, But(ops)), ops[|ops| - 1];
    RunInv(merge, But(ops));
    StepFinds(merge, op, t, x);
    StepFinds(merge, op, t, y);
    assert ops == But(ops) + [op];
    if !(op == Unite(x, y) || op == Unite(y, x)) {
      LinkedIsSame(merge, But(ops), x, y);
    }
  }

  lemma {:induction false} PathIsSame<K(!new), A>(merge: (A, A) -> A, ops: seq<Op<K, A>>, p: seq<K>)
    requires Path(ops, p)
    ensures Find(Run(merge, ops), p[0]) == Find(Run(merge, ops), p[|p| - 1])
  {
    if |p| > 1 {
      assert Linked(ops, p[0], p[1]);
      LinkedIsSame(merge, ops, p[0], p[1]);
      forall i | 0 <= i < |p[1..]| - 1 ensures Linked(ops, p[1..][i], p[1..][i + 1]) {
        assert Linked(ops, p[i + 1], p[i + 1 + 1]);
      }
      PathIsSame(merge, ops, p[1..]);
    }
  }

  /** After any operations, two keys have the same canonical element exactly when the unions connect them. */
  lemma CanonicalIffConnected<K(!new), A>(merge: (A, A) -> A, ops: seq<Op<K, A>>, x: K, y: K)
    ensures Find(Run(merge, ops), x) == Find(Run(merge, ops), y) <==> Connected(ops, x, y)
  {
    if Find(Run(merge, ops), x) == Find(Run(merge, ops), y) {
      SameIsConnected(merge, ops, x, y);
    }
    if Connected(ops, x, y) {
      var p :| Path(ops, p) && p[0] == x && p[|p| - 1] == y;
      PathIsSame(merge, ops, p);
    }
  }

  // ---------------------------------------------------------------- data

  ghost predicate AssociativeCommutative<A(!new)>(merge: (A, A) -> A) {
    && (forall a, b :: merge(a, b) == merge(b, a))
    && (forall a, b, c :: merge(merge(a, b), c) == merge(a, merge(b, c)))
  }

  /** The merge of all data added to keys of the class. */
  function Total<K, A>(merge: (A, A) -> A, ops: seq<Op<K, A>>, class_: K -> bool): Option<A> {
    if ops == [] then None else
    var rest := Total(merge, But(ops), class_);
    match ops[|ops| - 1]
    case AddDatum(k, d) => if class_(k) then Combine(merge, Some(d), rest) else rest
    case Unite(_, _) => rest
  }

  lemma {:induction false} TotalOfSame<K(!new), A>(merge: (A, A) -> A, ops: seq<Op<K, A>>, p: K -> bool, q: K -> bool)
    requires forall k :: p(k) == q(k)
    ensures Total(merge, ops, p) == Total(merge, ops, q)
  {
    if ops != [] { TotalOfSame(merge, But(ops), p, q); }
  }

  lemma CombineMoves<A(!new)>(merge: (A, A) -> A, d: A, a: Option<A>, b: Option<A>)
    requires AssociativeCommutative(merge)
    ensures Combine(merge, Some(d), Combine(merge, a, b)) == Combine(merge, Combine(merge, Some(d), a), b)
    ensures Combine(merge, Some(d), Combine(merge, a, b)) == Combine(merge, a, Combine(merge, Some(d), b))
    ensures Combine(merge, a, b) == Combine(merge, b, a)
  {
  }

  lemma {:induction false} TotalOfUnion<K(!new), A(!new)>(merge: (A, A) -> A, ops: seq<Op<K, A>>, p: K -> bool,
      q: K -> bool, pq: K -> bool)
    requires AssociativeCommutative(merge) && forall k :: pq(k) == (p(k) || q(k)) && !(p(k) && q(k))
    ensures Total(merge, ops, pq) == Combine(merge, Total(merge, ops, p), Total(merge, ops, q))
  {
    if ops != [] {
      TotalOfUnion(merge, But(ops), p, q, pq);
      if ops[|ops| - 1].AddDatum? {
        CombineMoves(merge, ops[|ops| - 1].datum, Total(merge, But(ops), p), Total(merge, But(ops), q));
      }
    }
  }

  lemma UnionData<K(!new), A>(merge: (A, A) -> A, x: K, y: K, t: UF<K, A>, k: K)
    requires Inv(t)
    ensures var l, r, t' := Find(t, x), Find(t, y), Union(merge, x, y, t);
      FindOpt(t', k) ==
        if l != r && (Find(t, k) == l || Find(t, k) == r) then Combine(merge, FindOpt(t, x), FindOpt(t, y))
        else FindOpt(t, k)
  {
    UnionFinds(merge, x, y, t, k);
    var l, r := Find(t, x), Find(t, y);
    if l != r {
      FindTwice(t, x);
      FindTwice(t, y);
      FindTwice(t, k);
      var lose, win := Loser(t, l, r), Winner(t, l, r);
      MapMoved(t.nodes, win, Merged(merge, t, l, r), lose);
    }
  }

  /** The class of a key. */
  ghost function ClassOf<K, A>(t: UF<K, A>, x: K): K -> bool { k => Find(t, k) == Find(t, x) }

  lemma DataAfterAdd<K(!new), A(!new)>(merge: (A, A) -> A, ops: seq<Op<K, A>>, x: K)
    requires |ops| > 0 && ops[|ops| - 1].AddDatum?
    requires FindOpt(Run(merge, But(ops)), x) == Total(merge, But(ops), ClassOf(Run(merge, But(ops)), x))
    ensures FindOpt(Run(merge, ops), x) == Total(merge, ops, ClassOf(Run(merge, ops), x))
  {
    var t, op := Run(merge, But(ops)), ops[|ops| - 1];
    RunInv(merge, But(ops));
    AddInv(merge, op.key, op.datum, t);
    TotalOfSame(merge, But(ops), ClassOf(t, x), ClassOf(Run(merge, ops), x));
  }

  lemma DataAfterUnite<K(!new), A(!new)>(merge: (A, A) -> A, ops: seq<Op<K, A>>, t: UF<K, A>, a: K, b: K, x: K)
    requires Inv(t) && AssociativeCommutative(merge)
    requires FindOpt(t, x) == Total(merge, ops, ClassOf(t, x))
    requires FindOpt(t, a) == Total(merge, ops, ClassOf(t, a)) && FindOpt(t, b) == Total(merge, ops, ClassOf(t, b))
    ensures FindOpt(Union(merge, a, b, t), x) == Total(merge, ops, ClassOf(Union(merge, a, b, t), x))
  {
    UnionData(merge, a, b, t, x);
    ClassAfterUnite(merge, a, b, t, x);
    var class_ := ClassOf(Union(merge, a, b, t), x);
    hide Union, FindOpt, Inv, Find;
    if Joined(t, a, b, x) {
      ClassesApart(t, a, b, x);
      TotalOfUnion(merge, ops, ClassOf(t, a), ClassOf(t, b), class_);
    } else {
      TotalOfSame(merge, ops, ClassOf(t, x), class_);
    }
  }

  /** The union of a and b changes the class of x. */
  predicate Joined<K(==), A>(t: UF<K, A>, a: K, b: K, x: K) {
    Find(t, a) != Find(t, b) && (Find(t, x) == Find(t, a) || Find(t, x) == Find(t, b))
  }

  lemma ClassesApart<K(!new), A>(t: UF<K, A>, a: K, b: K, x: K)
    requires Joined(t, a, b, x)
    ensures forall k :: !(ClassOf(t, a)(k) && ClassOf(t, b)(k))
  {
  }

  lemma ClassAfterUnite<K(!new), A>(merge: (A, A) -> A, a: K, b: K, t: UF<K, A>, x: K)
    requires Inv(t)
    ensures forall k ::
      ClassOf(Union(merge, a, b, t), x)(k)
      == if Joined(t, a, b, x) then ClassOf(t, a)(k) || ClassOf(t, b)(k) else ClassOf(t, x)(k)
  {
    forall k
      ensures ClassOf(Union(merge, a, b, t), x)(k)
           == if Joined(t, a, b, x) then ClassOf(t, a)(k) || ClassOf(t, b)(k) else ClassOf(t, x)(k)
    {
      UnionFinds(merge, a, b, t, x);
      UnionFinds(merge, a, b, t, k);
      hide Union, Find, Inv;
    }
  }

  /** find_opt gives the merge of everything added in the class of the key. */
  lemma {:induction false} DatumIsTotal<K(!new), A(!new)>(merge: (A, A) -> A, ops: seq<Op<K, A>>, x: K)
    requires AssociativeCommutative(merge)
    ensures FindOpt(Run(merge, ops), x) == Total(merge, ops, ClassOf(Run(merge, ops), x))
  {
    if ops != [] {
      DatumIsTotal(merge, But(ops), x);
      if ops[|ops| - 1].AddDatum? {
        DataAfterAdd(merge, ops, x);
      } else {
        DatumIsTotal(merge, But(ops), ops[|ops| - 1].left);
        DatumIsTotal(merge, But(ops), ops[|ops| - 1].right);
        RunInv(merge, But(ops));
        DataAfterUnite(merge, But(ops), Run(merge, But(ops)), ops[|ops| - 1].left, ops[|ops| - 1].right, x);
      }
    }
  }

  // ---------------------------------------------------------------- how often a key is relabelled

  function Size<K(==), A>(t: UF<K, A>, x: K): (n: nat)
    ensures n >= 1
  {
    NodeOf(t, Find(t, x)).cardinal + 1
  }

  /** How many of the operations changed the canonical element of x. */
  function Changes<K(==), A>(merge: (A, A) -> A, ops: seq<Op<K, A>>, x: K): nat {
    if ops == [] then 0 else
    Changes(merge, But(ops), x) + if Find(Run(merge, But(ops)), x) == Find(Run(merge, ops), x) then 0 else 1
  }

  lemma SizeAfterUnion<K(!new), A>(merge: (A, A) -> A, x: K, y: K, t: UF<K, A>, k: K)
    requires Inv(t)
    ensures var t' := Union(merge, x, y, t);
      Size(t', k) >= if Find(t', k) == Find(t, k) then Size(t, k) else 2 * Size(t, k)
  {
  }

  /** A key relabelled k times is in a class of at least 2 to the k keys. */
  lemma {:induction false} SizeDoubles<K(!new), A>(merge: (A, A) -> A, ops: seq<Op<K, A>>, x: K)
    ensures Size(Run(merge, ops), x) >= Pow2(Changes(merge, ops, x))
  {
    hide Size, Find, Apply, Inv;
    if ops != [] {
      SizeDoubles(merge, But(ops), x);
      RunInv(merge, But(ops));
      var t, t', n := Run(merge, But(ops)), Run(merge, ops), Changes(merge, But(ops), x);
      SizeAfterStep(merge, ops[|ops| - 1], t, x);
      hide Run;
      assert Changes(merge, ops, x) == if Find(t', x) == Find(t, x) then n else n + 1;
      hide Changes;
      assert Pow2(n + 1) == 2 * Pow2(n);
    }
  }

  lemma SizeAfterStep<K(!new), A>(merge: (A, A) -> A, op: Op<K, A>, t: UF<K, A>, k: K)
    requires Inv(t)
    ensures var t' := Apply(merge, op, t);
      Size(t', k) >= if Find(t', k) == Find(t, k) then Size(t, k) else 2 * Size(t, k)
  {
    if op.Unite? {
      SizeAfterUnion(merge, op.left, op.right, t, k);
    } else {
      AddInv(merge, op.key, op.datum, t);
    }
  }

  /** The keys that occur in unions. */
  function Mentioned<K, A>(ops: seq<Op<K, A>>): set<K> {
    if ops == [] then {} else
    Mentioned(But(ops)) + match ops[|ops| - 1] case AddDatum(_, _) => {} case Unite(l, r) => {l, r}
  }

  lemma {:induction false} LinkedIsMentioned<K(!new), A>(ops: seq<Op<K, A>>, x: K, y: K)
    requires Linked(ops, x, y)
    ensures x in Mentioned(ops)
  {
    var op := ops[|ops| - 1];
    assert ops == But(ops) + [op];
    if !(op == Unite(x, y) || op == Unite(y, x)) { LinkedIsMentioned(But(ops), x, y); }
  }

  lemma UnmentionedIsAlone<K(!new), A>(merge: (A, A) -> A, ops: seq<Op<K, A>>, x: K, y: K)
    requires x !in Mentioned(ops) && Find(Run(merge, ops), x) == Find(Run(merge, ops), y)
    ensures x == y
  {
    SameIsConnected(merge, ops, x, y);
    var p :| Path(ops, p) && p[0] == x && p[|p| - 1] == y;
    if |p| > 1 {
      assert Linked(ops, p[0], p[0 + 1]);
      LinkedIsMentioned(ops, p[0], p[1]);
    }
  }

  function Members<K, A>(t: UF<K, A>, x: K): set<K> { {Find(t, x)} + NodeOf(t, Find(t, x)).aliases }

  /** The size kept in the node counts the keys of the class. */
  lemma SizeCounts<K(!new), A>(t: UF<K, A>, x: K)
    requires Inv(t)
    ensures |Members(t, x)| == Size(t, x)
    ensures forall k {:trigger k in Members(t, x)} :: k in Members(t, x) <==> Find(t, k) == Find(t, x)
  {
  }

  /** A key is relabelled at most log2 of the number of keys that ever occur in a union. */
  lemma RelabelledAtMostLog<K(!new), A>(merge: (A, A) -> A, ops: seq<Op<K, A>>, x: K)
    ensures Changes(merge, ops, x) == 0 || Pow2(Changes(merge, ops, x)) <= |Mentioned(ops)|
  {
    if Changes(merge, ops, x) > 0 {
      var t := Run(merge, ops);
      RunInv(merge, ops);
      SizeDoubles(merge, ops, x);
      SizeCounts(t, x);
      var m := Members(t, x);
      forall k | k in m ensures k in Mentioned(ops) {
        if k !in Mentioned(ops) {
          forall y | y in m ensures y == k { UnmentionedIsAlone(merge, ops, k, y); }
          SubsetSize(m, {k});
        }
      }
      SubsetSize(m, Mentioned(ops));
    }
  }

  lemma {:induction false} SubsetSize<K>(a: set<K>, b: set<K>)
    requires a <= b
    ensures |a| <= |b|
  {
    if a != {} {
      var e :| e in a;
      SubsetSize(a - {e}, b - {e});
    }
  }
}
