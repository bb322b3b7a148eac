/**
 * Which local a quantifier's variable is put in and which one it is read from: environments are threaded
 * through a proposition, so that a quantifier once entered is never left again.
 */
module WeaselBinders {
  import W = Wasm
  import opened Weasel

  /** The body of a quantifier that compiles. */
  function Body(p: Prop): (b: Prop)
    requires BoundedQuantification(p).Ok?
    ensures b < p
  {
    BoundedQuantification(p).value.2
  }

  /** A way down into a proposition: through a negation, to a side of a connective, into a quantifier's body. */
  datatype Turn = IntoNot | IntoLeft | IntoRight | IntoBody

  /** The part a way leads to, for propositions that compile. */
  predicate LeadsIn(tenv: TypeEnv, p: Prop, way: seq<Turn>)
    requires PropGenerate(tenv, p).Ok?
    decreases |way|
  {
    way == [] ||
    match (way[0], p)
    case (IntoNot, Not(p1)) => LeadsIn(tenv, p1, way[1..])
    case (IntoLeft, BinConnect(_, p1, _)) => LeadsIn(tenv, p1, way[1..])
    case (IntoRight, BinConnect(_, p1, p2)) => LeadsIn(PropGenerate(tenv, p1).value.0, p2, way[1..])
    case (IntoBody, Binder(_, bt, _)) => LeadsIn(tenv.Enter(bt), Body(p), way[1..])
    case _ => false
  }

  /** The environment terms are compiled in there: entered binders stay, also those of parts already left. */
  function EnvAt(tenv: TypeEnv, p: Prop, way: seq<Turn>): TypeEnv
    requires PropGenerate(tenv, p).Ok? && LeadsIn(tenv, p, way)
    decreases |way|
  {
    if way == [] then tenv else
    match p
    case Not(p1) => EnvAt(tenv, p1, way[1..])
    case BinConnect(_, p1, p2) =>
      if way[0].IntoLeft? then EnvAt(tenv, p1, way[1..]) else EnvAt(PropGenerate(tenv, p1).value.0, p2, way[1..])
    case Binder(_, bt, _) => EnvAt(tenv.Enter(bt), Body(p), way[1..])
  }

  /** Quantifiers in the parts that are compiled. */
  function Binders(p: Prop): nat
    decreases p
  {
    match p
    case Not(p1) => Binders(p1)
    case BinConnect(_, p1, p2) => Binders(p1) + Binders(p2)
    case Binder(_, _, _) => if BoundedQuantification(p).Ok? then 1 + Binders(Body(p)) else 0
    case _ => 0
  }

  /** Quantifiers around the end of the way: the index by which it refers to the variable of one just outside p. */
  function Depth(way: seq<Turn>): nat {
    if way == [] then 0 else (if way[0].IntoBody? then 1 else 0) + Depth(way[1..])
  }

  /** Quantifiers begun before the end of the way is reached: those around it, and those to its left. */
  function Begun(p: Prop, way: seq<Turn>): nat
    decreases |way|
  {
    if way == [] then 0 else
    match p
    case Not(p1) => Begun(p1, way[1..])
    case BinConnect(_, p1, p2) => if way[0].IntoLeft? then Begun(p1, way[1..]) else Binders(p1) + Begun(p2, way[1..])
    case Binder(_, _, _) => if BoundedQuantification(p).Ok? then 1 + Begun(Body(p), way[1..]) else 0
    case _ => 0
  }

  lemma {:induction false} BaseAfter(tenv: TypeEnv, p: Prop)
    requires PropGenerate(tenv, p).Ok?
    ensures PropGenerate(tenv, p).value.0.binderBase == tenv.binderBase + Binders(p)
    ensures |PropGenerate(tenv, p).value.0.binders| == |tenv.binders| + Binders(p)
    ensures var after := PropGenerate(tenv, p).value.0;
      after == tenv.(binders := after.binders, binderBase := after.binderBase)
    decreases p
  {
    match p
    case Not(p1) => BaseAfter(tenv, p1);
    case BinConnect(_, p1, p2) =>
      BaseAfter(tenv, p1);
      BaseAfter(PropGenerate(tenv, p1).value.0, p2);
    case Binder(_, bt, _) => BaseAfter(tenv.Enter(bt), Body(p));
    case _ =>
  }

  lemma {:induction false} BaseAt(tenv: TypeEnv, p: Prop, way: seq<Turn>)
    requires PropGenerate(tenv, p).Ok? && LeadsIn(tenv, p, way)
    ensures EnvAt(tenv, p, way).binderBase == tenv.binderBase + Begun(p, way)
    ensures |EnvAt(tenv, p, way).binders| == |tenv.binders| + Begun(p, way) && Depth(way) <= Begun(p, way)
    decreases |way|
  {
    if way != [] {
      match p
      case Not(p1) => BaseAt(tenv, p1, way[1..]);
      case BinConnect(_, p1, p2) =>
        BaseAfter(tenv, p1);
        if way[0].IntoLeft? {
          BaseAt(tenv, p1, way[1..]);
        } else {
          BaseAt(PropGenerate(tenv, p1).value.0, p2, way[1..]);
        }
      case Binder(_, bt, _) => BaseAt(tenv.Enter(bt), Body(p), way[1..]);
    }
  }

  /** The local a quantifier's code sets to the lower bound, increments and tests. */
  function SetLocal(tenv: TypeEnv, p: Prop): nat
    requires p.Binder? && PropGenerate(tenv, p).Ok?
  {
    PropGenerate(tenv.Enter(p.bt), Body(p)).value.0.BinderAt(0)
  }

  /** The quantifier's variable, referred to from there, is looked for in that local. */
  predicate ReadsItsLocal(tenv: TypeEnv, p: Prop, way: seq<Turn>)
    requires p.Binder? && PropGenerate(tenv, p).Ok? && LeadsIn(tenv.Enter(p.bt), Body(p), way)
  {
    var read := TermGenerate(EnvAt(tenv.Enter(p.bt), Body(p), way), BinderVar(Depth(way)));
    read.Ok? && read.value.0 == [W.LocalGet(SetLocal(tenv, p))]
  }

  lemma SetLocalIsSet(tenv: TypeEnv, p: Prop)
    requires p.Binder? && PropGenerate(tenv, p).Ok?
    ensures var lower := TermGenerate(tenv, BoundedQuantification(p).value.0).value.0;
      PropGenerate(tenv, p).value.1[0].body[|lower|] == W.LocalSet(SetLocal(tenv, p))
  {
  }

  /**
   * A quantifier's variable is read, at any place of its body, from the local it was put in exactly when
   * the quantifiers begun there and those around that place together are as many as the body has.
   */
  lemma VariableReadWhereSet(tenv: TypeEnv, p: Prop, way: seq<Turn>)
    requires p.Binder? && PropGenerate(tenv, p).Ok?
    requires LeadsIn(tenv.Enter(p.bt), Body(p), way)
    ensures ReadsItsLocal(tenv, p, way) <==> Begun(Body(p), way) + Depth(way) == Binders(Body(p))
  {
    BaseAfter(tenv.Enter(p.bt), Body(p));
    BaseAt(tenv.Enter(p.bt), Body(p), way);
    hide PropGenerate, EnvAt, LeadsIn, Begun, Depth, Binders, BoundedQuantification;
  }

  /**
   * In a body without quantifiers that is everywhere; in any other there is a place, inside its last
   * quantifier, where it is not.
   */
  lemma {:induction false} WayToLast(tenv: TypeEnv, p: Prop) returns (way: seq<Turn>)
    requires PropGenerate(tenv, p).Ok?
    ensures LeadsIn(tenv, p, way) && Begun(p, way) == Binders(p)
    ensures Binders(p) > 0 ==> Depth(way) > 0
    decreases p
  {
    match p
    case Not(p1) =>
      var rest := WayToLast(tenv, p1);
      way := [IntoNot] + rest;
    case BinConnect(_, p1, p2) =>
      if Binders(p2) > 0 {
        var rest := WayToLast(PropGenerate(tenv, p1).value.0, p2);
        way := [IntoRight] + rest;
      } else {
        var rest := WayToLast(tenv, p1);
        way := [IntoLeft] + rest;
      }
    case Binder(_, bt, _) =>
      var rest := WayToLast(tenv.Enter(bt), Body(p));
      way := [IntoBody] + rest;
    case _ => way := [];
  }

  lemma {:induction false} NothingBegun(tenv: TypeEnv, p: Prop, way: seq<Turn>)
    requires PropGenerate(tenv, p).Ok? && LeadsIn(tenv, p, way) && Binders(p) == 0
    ensures Begun(p, way) == Depth(way) == 0
    decreases |way|
  {
    if way != [] {
      match p
      case Not(p1) => NothingBegun(tenv, p1, way[1..]);
      case BinConnect(_, p1, p2) =>
        if way[0].IntoLeft? {
          NothingBegun(tenv, p1, way[1..]);
        } else {
          NothingBegun(PropGenerate(tenv, p1).value.0, p2, way[1..]);
        }
      case Binder(_, _, _) => assert false;
    }
  }

  /** Only a quantifier without others in its body has its variable read where it was put everywhere in the body. */
  lemma RightEverywhere(tenv: TypeEnv, p: Prop)
    requires p.Binder? && PropGenerate(tenv, p).Ok?
    ensures (forall way :: LeadsIn(tenv.Enter(p.bt), Body(p), way) ==> ReadsItsLocal(tenv, p, way))
        <==> Binders(Body(p)) == 0
  {
    hide ReadsItsLocal, LeadsIn;
    var inner := tenv.Enter(p.bt);
    if Binders(Body(p)) == 0 {
      forall way | LeadsIn(inner, Body(p), way) ensures ReadsItsLocal(tenv, p, way) {
        NothingBegun(inner, Body(p), way);
        VariableReadWhereSet(tenv, p, way);
      }
    } else {
      var way := WayToLast(inner, Body(p));
      VariableReadWhereSet(tenv, p, way);
    }
  }

  /** A quantifier directly inside another puts its variable in the same local as that one. */
  lemma NestedCollide(tenv: TypeEnv, p: Prop)
    requires p.Binder? && PropGenerate(tenv, p).Ok? && Body(p).Binder?
    ensures SetLocal(tenv, p) == SetLocal(tenv.Enter(p.bt), Body(p))
  {
    BaseAfter(tenv.Enter(p.bt), Body(p));
    BaseAfter(tenv.Enter(p.bt).Enter(Body(p).bt), Body(Body(p)));
  }

  /** Inside the innermost of quantifiers directly inside one another only its own variable is read from there. */
  lemma NestedVariable(tenv: TypeEnv, p: Prop, way: seq<Turn>)
    requires p.Binder? && PropGenerate(tenv, p).Ok? && LeadsIn(tenv.Enter(p.bt), Body(p), way)
    requires (forall turn <- way :: turn.IntoBody?) && |way| == Binders(Body(p))
    ensures ReadsItsLocal(tenv, p, way) <==> way == []
  {
    VariableReadWhereSet(tenv, p, way);
    AllBegun(tenv.Enter(p.bt), Body(p), way);
  }

  lemma {:induction false} AllBegun(tenv: TypeEnv, p: Prop, way: seq<Turn>)
    requires PropGenerate(tenv, p).Ok? && LeadsIn(tenv, p, way) && forall turn <- way :: turn.IntoBody?
    ensures Begun(p, way) == Depth(way) == |way|
    decreases |way|
  {
    if way != [] {
      assert way[0].IntoBody?;
      AllBegun(tenv.Enter(p.bt), Body(p), way[1..]);
    }
  }
}
