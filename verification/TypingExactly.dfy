/**
 * The typing rules of instructions without control flow are neither too weak nor too strong: they hold exactly when
 * the instruction works on all operands of the types.
 */
module TypingExactly {
  import opened Wasm
  import opened Machine
  import opened Typing

  /** A trap, or operands of these types and locals of the same. */
  ghost predicate Gives(r: Plain, locals: seq<ValType>, t2: StackType) {
    r.PlainTrap? || (r.PlainOk? && TypesOf(r.stack) == t2 && TypesOf(r.locals) == locals)
  }

  /** On any operands and locals of the types it never faults, and leaves operands of the others. */
  ghost predicate Works(c: Context, i: Instr, t1: StackType, t2: StackType)
    requires IsPlain(i)
  {
    forall stack: seq<Value>, locals: seq<Value> :: TypesOf(stack) == t1 && TypesOf(locals) == c.locals ==>
      Gives(ExecPlain(c.m, i, stack, locals), c.locals, t2)
  }

  /** The types after some operands are replaced by one. */
  lemma OneForSome(stack: seq<Value>, n: nat, v: Value)
    requires n <= |stack|
    ensures TypesOf([v] + stack[n..]) == [v.Type()] + TypesOf(stack)[n..]
    ensures TypesOf(stack[n..]) == TypesOf(stack)[n..]
  {
  }

  lemma SameLocals(locals: seq<Value>, k: nat, v: Value)
    requires k < |locals|
    ensures TypesOf(locals[k := v]) == TypesOf(locals) <==> v.Type() == locals[k].Type()
  {
    if TypesOf(locals[k := v]) == TypesOf(locals) {
      assert TypesOf(locals[k := v])[k] == v.Type();
    } else {
      assert exists j :: 0 <= j < |locals| && TypesOf(locals[k := v])[j] != TypesOf(locals)[j];
    }
  }

  lemma TypedWorksOn(c: Context, i: Instr, stack: seq<Value>, locals: seq<Value>, t2: StackType)
    requires IsPlain(i) && InstrTyped(c, i, TypesOf(stack), t2) && TypesOf(locals) == c.locals
    ensures Gives(ExecPlain(c.m, i, stack, locals), c.locals, t2)
  {
    hide ApplyBinop, ApplyRelop;
    var t1 := TypesOf(stack);
    assert forall k :: 0 <= k < |stack| ==> t1[k] == stack[k].Type();
    var r := ExecPlain(c.m, i, stack, locals);
    if i.IBinop? || i.IRelop? || i.IEqz? { NumericWorks(c, i, stack, locals, t2); }
    else if i.Select? { SelectWorks(c, stack, locals, t2); }
    else if i.Drop? { OneForSome(stack, 1, stack[0]); }
    else if i.LocalSet? || i.LocalTee? {
      OneForSome(stack, 1, stack[0]);
      SameLocals(locals, i.idx, stack[0]);
    } else if !i.Nop? && !i.Unreachable? { OneForSome(stack, 0, r.stack[0]); }
  }

  lemma NumericWorks(c: Context, i: Instr, stack: seq<Value>, locals: seq<Value>, t2: StackType)
    requires i.IBinop? || i.IRelop? || i.IEqz?
    requires InstrTyped(c, i, TypesOf(stack), t2) && TypesOf(locals) == c.locals
    ensures Gives(ExecPlain(c.m, i, stack, locals), c.locals, t2)
  {
    hide ApplyBinop, ApplyRelop;
    var r := ExecPlain(c.m, i, stack, locals);
    assert forall k :: 0 <= k < |stack| ==> TypesOf(stack)[k] == stack[k].Type();
    if r.PlainOk? { OneForSome(stack, if i.IEqz? then 1 else 2, r.stack[0]); }
  }

  lemma SelectWorks(c: Context, stack: seq<Value>, locals: seq<Value>, t2: StackType)
    requires InstrTyped(c, Select, TypesOf(stack), t2) && TypesOf(locals) == c.locals
    ensures Gives(ExecPlain(c.m, Select, stack, locals), c.locals, t2)
  {
    OneForSome(stack, 3, stack[1]);
    OneForSome(stack, 3, stack[2]);
    assert stack[1..][2..] == stack[3..];
  }

  // ---------------------------------------------------------------- operands to try

  function Sample(t: ValType, one: bool): (v: Value)
    ensures v.Type() == t
  {
    match t case TI32 => I32(if one then 1 else 0) case TI64 => I64(if one then 1 else 0)
  }

  function Samples(ts: seq<ValType>, one: bool): (vs: seq<Value>)
    ensures |vs| == |ts| && TypesOf(vs) == ts
    ensures forall k {:trigger vs[k]} :: 0 <= k < |ts| ==> vs[k] == Sample(ts[k], one)
  {
    seq(|ts|, k requires 0 <= k < |ts| => Sample(ts[k], one))
  }

  /** No operator traps on two ones. */
  lemma OnesWork(nn: Size, op: Binop)
    ensures InRange(nn, 1) && ApplyBinop(nn, op, 1, 1).Ok?
  {
  }

  lemma WorksTypedOn(c: Context, i: Instr, t1: StackType, t2: StackType, stack: seq<Value>, locals: seq<Value>)
    requires IsPlain(i) && !i.Select? && !i.Unreachable?
    requires stack == Samples(t1, true) && locals == Samples(c.locals, true)
    requires Gives(ExecPlain(c.m, i, stack, locals), c.locals, t2)
    ensures InstrTyped(c, i, t1, t2)
  {
    hide ApplyBinop, ApplyRelop;
    var r := ExecPlain(c.m, i, stack, locals);
    if i.IBinop? || i.IRelop? || i.IEqz? { NumericTypedOn(c, i, t1, t2, stack, locals); }
    else if i.Drop? { OneForSome(stack, 1, stack[0]); }
    else if i.LocalSet? || i.LocalTee? {
      OneForSome(stack, 1, stack[0]);
      SameLocals(locals, i.idx, stack[0]);
    } else if !i.Nop? { OneForSome(stack, 0, r.stack[0]); }
  }

  lemma NumericTypedOn(c: Context, i: Instr, t1: StackType, t2: StackType, stack: seq<Value>, locals: seq<Value>)
    requires i.IBinop? || i.IRelop? || i.IEqz?
    requires stack == Samples(t1, true) && Gives(ExecPlain(c.m, i, stack, locals), c.locals, t2)
    ensures InstrTyped(c, i, t1, t2)
  {
    hide ApplyBinop, ApplyRelop;
    var r := ExecPlain(c.m, i, stack, locals);
    if i.IBinop? { OnesWork(i.nn, i.op); }
    OneForSome(stack, if i.IEqz? then 1 else 2, r.stack[0]);
  }

  /** Either value may be chosen, so both are of the type left. */
  lemma SelectTypedOn(c: Context, t1: StackType, t2: StackType, locals: seq<Value>)
    requires locals == Samples(c.locals, true)
    requires Gives(ExecPlain(c.m, Select, Samples(t1, true), locals), c.locals, t2)
    requires Gives(ExecPlain(c.m, Select, Samples(t1, false), locals), c.locals, t2)
    ensures InstrTyped(c, Select, t1, t2)
  {
    var ones, zeros := Samples(t1, true), Samples(t1, false);
    SelectLeaves(c, ones, locals);
    SelectLeaves(c, zeros, locals);
    hide ExecPlain, Samples;
    assert t2[0] == t1[2] && t2[0] == t1[1];
    assert [t1[2]] + t1[3..] == t1[2..];
  }

  lemma SelectLeaves(c: Context, stack: seq<Value>, locals: seq<Value>)
    requires ExecPlain(c.m, Select, stack, locals).PlainOk?
    ensures |stack| > 2 && stack[0].I32?
    ensures TypesOf(ExecPlain(c.m, Select, stack, locals).stack)
      == [(if stack[0].i != 0 then stack[2] else stack[1]).Type()] + TypesOf(stack)[3..]
  {
    var v := if stack[0].i != 0 then stack[2] else stack[1];
    OneForSome(stack, 3, v);
    assert stack[1..][2..] == stack[3..];
  }

  /** The rules are exact. */
  lemma PlainTypedExactly(c: Context, i: Instr, t1: StackType, t2: StackType)
    requires IsPlain(i)
    ensures InstrTyped(c, i, t1, t2) <==> Works(c, i, t1, t2)
  {
    hide InstrTyped, ExecPlain, Gives;
    forall stack: seq<Value>, locals: seq<Value> |
      TypesOf(stack) == t1 && TypesOf(locals) == c.locals && InstrTyped(c, i, t1, t2)
      ensures Gives(ExecPlain(c.m, i, stack, locals), c.locals, t2)
    {
      TypedWorksOn(c, i, stack, locals, t2);
    }
    if Works(c, i, t1, t2) {
      var (ones, zeros, locals) := (Samples(t1, true), Samples(t1, false), Samples(c.locals, true));
      assert TypesOf(ones) == TypesOf(zeros) == t1 && TypesOf(locals) == c.locals;
      if i.Select? { SelectTypedOn(c, t1, t2, locals); }
      else if i.Unreachable? { UnreachableTyped(c, t1, t2); }
      else { WorksTypedOn(c, i, t1, t2, ones, locals); }
    }
  }

  lemma UnreachableTyped(c: Context, t1: StackType, t2: StackType)
    ensures InstrTyped(c, Unreachable, t1, t2)
  {
  }
}
