/** Code entries: run-length coded locals and the entry around them come back as they were. */
module CodeProofs {
  import opened Prelude
  import opened Words
  import opened Leb128
  import opened BinaryAst
  import opened BinaryParser
  import opened BinaryEncoder
  import opened CodecProofs

  /** The type a value type's byte stands for. */
  function Decode(b: byte): ValType {
    if b == 0x7F then ValType.Num(I32) else if b == 0x7E then ValType.Num(I64) else if b == 0x7D then ValType.Num(F32)
    else if b == 0x7C then ValType.Num(F64) else if b == 0x7B then ValType.Num(V128)
    else if b == 0x70 then Ref(FuncHt) else Ref(ExternHt)
  }

  type Run = (byte, nat)

  /** Runs of coded types, of positive lengths. */
  ghost predicate Proper(runs: seq<Run>) {
    forall k :: 0 <= k < |runs| ==> runs[k].1 > 0 && runs[k].0 == ValtypeByte(Decode(runs[k].0))
  }

  /** The locals that runs, most recent first, stand for. */
  function Expand(runs: seq<Run>): seq<ValType> {
    if runs == [] then [] else Expand(runs[1..]) + Repeat(runs[0].1, Decode(runs[0].0))
  }

  lemma AddRunExpands(runs: seq<Run>, vt: ValType)
    requires Proper(runs)
    ensures Proper(AddRun(runs, ValtypeByte(vt))) && Expand(AddRun(runs, ValtypeByte(vt))) == Expand(runs) + [vt]
  {
    var b := ValtypeByte(vt);
    assert Decode(b) == vt;
    if runs != [] && runs[0].0 == b {
      var r := AddRun(runs, b);
      assert r[1..] == runs[1..] && r[0] == (b, runs[0].1 + 1);
      assert Repeat(runs[0].1 + 1, vt) == Repeat(runs[0].1, vt) + [vt];
      assert Expand(r) == Expand(runs[1..]) + Repeat(runs[0].1 + 1, vt);
    } else {
      var r := AddRun(runs, b);
      assert r[1..] == runs && r[0] == (b, 1);
      assert Repeat(1, vt) == [vt];
    }
  }

  /** Compression loses nothing. */
  lemma {:induction false} RunsExpand(runs: seq<Run>, locals: seq<ValType>)
    requires Proper(runs)
    ensures Proper(Runs(runs, locals)) && Expand(Runs(runs, locals)) == Expand(runs) + locals
    decreases |locals|
  {
    if locals == [] {
      assert Expand(runs) + locals == Expand(runs);
    } else {
      hide Expand, Proper, AddRun, ValtypeByte;
      AddRunExpands(runs, locals[0]);
      RunsExpand(AddRun(runs, ValtypeByte(locals[0])), locals[1..]);
      OneThenRest(Expand(runs), locals);
    }
  }

  /** No two runs next to each other are of the same type. */
  ghost predicate Maximal(runs: seq<Run>) {
    forall k :: 0 <= k < |runs| - 1 ==> runs[k].0 != runs[k + 1].0
  }

  lemma {:induction false} RunsMaximal(runs: seq<Run>, locals: seq<ValType>)
    requires Maximal(runs)
    ensures Maximal(Runs(runs, locals))
    decreases |locals|
  {
    if locals != [] { RunsMaximal(AddRun(runs, ValtypeByte(locals[0])), locals[1..]); }
  }

  lemma OneThenRest(before: seq<ValType>, locals: seq<ValType>)
    requires locals != []
    ensures before + [locals[0]] + locals[1..] == before + locals
  {
  }

  ghost predicate Short(runs: seq<Run>) {
    forall k :: 0 <= k < |runs| ==> runs[k].1 < 0x1_0000_0000
  }

  /** Runs as the parser reads them. */
  function Typed(runs: seq<Run>): (r: seq<(u32, ValType)>)
    requires Short(runs)
    ensures |r| == |runs|
    ensures forall k {:trigger r[k]} :: 0 <= k < |runs| ==> r[k] == (runs[k].1, Decode(runs[k].0))
  {
    seq(|runs|, k requires 0 <= k < |runs| => (runs[k].1, Decode(runs[k].0)))
  }

  lemma LocalRoundTrip(run: Run, rest: seq<byte>)
    requires run.1 < 0x1_0000_0000 && run.0 == ValtypeByte(Decode(run.0))
    ensures ReadLocal(RunBytes(run) + rest) == Ok((run.1, Decode(run.0)), rest)
  {
    hide ReadU32, UBytes, ReadValtype, Decode, ValtypeByte;
    assert RunBytes(run) + rest == UBytes(run.1) + ([run.0] + rest);
    U32RoundTrip(run.1, [run.0] + rest);
    ValtypeRoundTrip(Decode(run.0), rest);
  }

  lemma {:induction false} LocalsLoop(runs: seq<Run>, acc: seq<(u32, ValType)>, rest: seq<byte>)
    requires Proper(runs) && Short(runs)
    ensures VectorLoop(ReadLocal, |runs|, Concat(RunBytes, runs) + rest, acc) == Ok(acc + Typed(runs), rest)
    decreases |runs|
  {
    hide ReadLocal, RunBytes, Decode, ValtypeByte;
    if runs == [] {
      assert Concat(RunBytes, runs) + rest == rest && acc + Typed(runs) == acc;
    } else {
      var tail := Concat(RunBytes, runs[1..]) + rest;
      assert Concat(RunBytes, runs) + rest == RunBytes(runs[0]) + tail;
      LocalRoundTrip(runs[0], tail);
      var first := (runs[0].1, Decode(runs[0].0));
      LocalsLoop(runs[1..], acc + [first], rest);
      assert acc + [first] + Typed(runs[1..]) == acc + Typed(runs);
    }
  }

  lemma {:induction false} FlattenSnoc(runs: seq<(u32, ValType)>, run: (u32, ValType))
    ensures Flatten(runs + [run]) == Flatten(runs) + Repeat(run.0, run.1)
    ensures Total(runs + [run]) == Total(runs) + run.0
  {
    if runs == [] {
      assert ([] + [run])[1..] == [];
      assert Repeat(run.0, run.1) + [] == Repeat(run.0, run.1);
    } else {
      FlattenSnoc(runs[1..], run);
      assert (runs + [run])[1..] == runs[1..] + [run];
    }
  }

  lemma ExpandLength(runs: seq<Run>)
    requires runs != [] && Proper(runs)
    ensures Proper(runs[1..]) && |Expand(runs)| == |Expand(runs[1..])| + runs[0].1
  {
  }

  /** The lengths of the runs add up to the number of locals, so each is as short as the whole. */
  lemma {:induction false} FlattenExpands(runs: seq<Run>)
    requires Proper(runs) && |Expand(runs)| < 0x1_0000_0000
    ensures Short(Reverse(runs)) && |runs| <= |Expand(runs)|
    ensures Flatten(Typed(Reverse(runs))) == Expand(runs) && Total(Typed(Reverse(runs))) == |Expand(runs)|
  {
    if runs == [] {
    } else {
      ExpandLength(runs);
      FlattenExpands(runs[1..]);
      var tail := Reverse(runs[1..]);
      assert Reverse(runs) == tail + [runs[0]];
      var last := (runs[0].1, Decode(runs[0].0));
      hide Expand, Decode, Flatten, Total;
      assert Short(Reverse(runs));
      assert Typed(Reverse(runs)) == Typed(tail) + [last];
      FlattenSnoc(Typed(tail), last);
      ExpandStep(runs);
    }
  }

  lemma ExpandStep(runs: seq<Run>)
    requires runs != []
    ensures Expand(runs) == Expand(runs[1..]) + Repeat(runs[0].1, Decode(runs[0].0))
  {
  }

  /** Locals come back in order, whatever their runs. */
  lemma LocalsRoundTrip(locals: seq<ValType>, rest: seq<byte>)
    requires |locals| < 0x1_0000_0000
    ensures ReadLocals(LocalsBytes(locals) + rest) == Ok(locals, rest)
  {
    hide ReadU32, UBytes, VectorLoop, Concat, Runs, Expand, Flatten, Total;
    var runs := Runs([], locals);
    RunsExpand([], locals);
    assert Expand([]) + locals == locals by { ExpandEmpty(); }
    FlattenExpands(runs);
    var xs := Reverse(runs);
    assert Proper(xs);
    var tail := Concat(RunBytes, xs) + rest;
    assert LocalsBytes(locals) + rest == UBytes(|xs|) + tail;
    U32RoundTrip(|xs|, tail);
    LocalsLoop(xs, [], rest);
    assert [] + Typed(xs) == Typed(xs);
  }

  lemma ExpandEmpty()
    ensures Expand([]) == []
  {
  }

  /**
   * read_code inverts one entry of the code section: the locals, the resolved body, and the entries after
   * it untouched.
   */
  lemma CodeRoundTrip(types: Types, locals: seq<ValType>, body: seq<Instr>, rest: seq<byte>)
    requires AllWritable(body) && AllEncodable(types, body)
    requires |locals| < 0x1_0000_0000 && |LocalsBytes(locals) + ExprBytes(body, END)| < 0x1_0000_0000
    ensures ReadCode(types, CodeBytes(locals, body) + rest) == Ok((locals, ResolveAll(types, body)), rest)
  {
    hide ReadU32, UBytes, ReadLocals, LocalsBytes, ExprBytes, ReadExpr;
    var code := LocalsBytes(locals) + ExprBytes(body, END);
    assert CodeBytes(locals, body) + rest == UBytes(|code|) + (code + rest);
    U32RoundTrip(|code|, code + rest);
    assert (code + rest)[..|code|] == code && (code + rest)[|code|..] == rest;
    LocalsRoundTrip(locals, ExprBytes(body, END));
    ExprRoundTrip(types, body, END, []);
    assert ExprBytes(body, END) + [] == ExprBytes(body, END) && [END] + [] == [END];
  }
}
