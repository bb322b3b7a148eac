/**
 * Which expressions come back from the binary format: a whole expression comes back, with any bytes read
 * beyond it, only if every instruction in it comes back by itself. A typed select, written without the number
 * of its types, is the one instruction that can be read as itself all the same; it then swallows whole
 * instructions behind it, and the expression read is too short.
 */
module CodecExactly {
  import opened Prelude
  import opened Words
  import opened Leb128
  import opened BinaryAst
  import opened BinaryParser
  import opened BinaryEncoder
  import opened CodecProofs

  /** j is i as it should come back: labels dropped, type indices resolved. */
  predicate Back(types: Types, i: Instr, j: Instr)
    requires Writable(i)
    decreases i
  {
    match i
    case Block(_, bt, body) =>
      j.Block? && j.lbl.None? && TypeBack(types, bt, j.bt) && AllBack(types, body, j.body)
    case Loop(_, bt, body) =>
      j.Loop? && j.lbl.None? && TypeBack(types, bt, j.bt) && AllBack(types, body, j.body)
    case IfElse(_, bt, thn, els) =>
      && j.IfElse? && j.lbl.None? && TypeBack(types, bt, j.bt)
      && AllBack(types, thn, j.thn) && AllBack(types, els, j.els)
    case CallIndirect(table, ty) =>
      ty.idx.value < |types| && j == CallIndirect(table, Definition(types, ty.idx.value))
    case _ => j == i
  }

  predicate TypeBack(types: Types, bt: Option<BlockType>, d: Option<BlockType>) {
    BlockTypeKnown(types, bt) && d == ResolveBt(types, bt)
  }

  predicate AllBack(types: Types, es: seq<Instr>, js: seq<Instr>)
    requires AllWritable(es)
    decreases es
  {
    if es == [] then js == []
    else js != [] && Back(types, es[0], js[0]) && AllBack(types, es[1..], js[1..])
  }

  lemma {:induction false} ResolveIsBack(types: Types, i: Instr)
    requires Writable(i) && Encodable(types, i)
    ensures Back(types, i, Resolve(types, i))
    decreases i
  {
    match i
    case Block(_, _, body) => ResolveAllIsBack(types, body);
    case Loop(_, _, body) => ResolveAllIsBack(types, body);
    case IfElse(_, _, thn, els) =>
      ResolveAllIsBack(types, thn);
      ResolveAllIsBack(types, els);
    case _ =>
  }

  lemma {:induction false} ResolveAllIsBack(types: Types, es: seq<Instr>)
    requires AllWritable(es) && AllEncodable(types, es)
    ensures AllBack(types, es, ResolveAll(types, es))
    decreases es
  {
    if es != [] {
      ResolveIsBack(types, es[0]);
      ResolveAllIsBack(types, es[1..]);
      assert ResolveAll(types, es)[1..] == ResolveAll(types, es[1..]);
    }
  }

  /** Reading goes on from what was read before. */
  lemma {:induction false} ReadExtends(types: Types, acc: seq<Instr>, input: seq<byte>)
    ensures var r := ReadExpr(types, acc, input); r.Ok? ==> acc <= r.value
    decreases |input|
  {
    hide ReadInstr;
    if input != [] && input[0] != 0x05 && input[0] != 0x0B && ReadInstr(types, input).Ok? {
      var r := ReadInstr(types, input);
      ReadExtends(types, acc + [r.value], r.rest);
    }
  }

  // ---------------------------------------------------------------- instructions of one byte

  predicate OneByte(i: Instr) { i.Num? || i.Unreachable? }

  predicate AllOneByte(es: seq<Instr>) { forall i <- es :: OneByte(i) }

  /** The opcodes they have; no other instruction has one of these. */
  predicate OneByteCode(b: byte) { b == 0x00 || 0x45 <= b <= 0xC4 }

  lemma BulkIsNot(input: seq<byte>)
    ensures ReadFC(input).Ok? ==> !OneByte(ReadFC(input).value)
  {
    hide ReadU32, Expect, TRUNC_SATS;
  }

  lemma FlatOneByte(types: Types, b: byte, input: seq<byte>)
    requires ReadFlat(types, b, input).Ok? && OneByte(ReadFlat(types, b, input).value)
    ensures var r := ReadFlat(types, b, input);
      r.rest == input && if b == 0x00 then r.value.Unreachable? else r.value.Num? && NumericOf(b) == Some(r.value.num)
  {
    hide ReadU32, ReadS32, ReadLe, Vector, ReadReftype, ReadFC, Expect, NumericOf, MEMOPS;
    BulkIsNot(input);
  }

  /** They are read only from such a byte. */
  lemma ReadOneByte(types: Types, input: seq<byte>)
    requires ReadInstr(types, input).Ok? && OneByte(ReadInstr(types, input).value)
    ensures input != [] && OneByteCode(input[0]) && ReadInstr(types, input).rest == input[1..]
  {
    var b, rest := input[0], input[1..];
    hide ReadFlat, ReadExpr, ReadBlockType, ReadElse;
    if b == 0x02 || b == 0x03 || b == 0x04 {
      NestedIsNot(types, input);
    } else {
      FlatOneByte(types, b, rest);
    }
  }

  lemma NestedIsNot(types: Types, input: seq<byte>)
    requires ReadInstr(types, input).Ok? && 0x02 <= input[0] <= 0x04
    ensures !OneByte(ReadInstr(types, input).value)
  {
    hide ReadExpr, ReadBlockType, Expect;
  }

  /** And nothing else is written with such a byte first. */
  lemma FirstByte(i: Instr)
    requires Writable(i) && OneByteCode(InstrBytes(i)[0])
    ensures OneByte(i)
  {
    hide ExprBytes, BlockTypeBytes, Immediates;
  }

  lemma OneByteBytes(types: Types, i: Instr)
    requires OneByte(i)
    ensures Writable(i) && |InstrBytes(i)| == 1 && Encodable(types, i) && Resolve(types, i) == i
  {
  }

  // ---------------------------------------------------------------- a shorter sequence is not read as a longer one

  /** The front of a sequence. */
  lemma SeqFront(es: seq<Instr>, tail: seq<byte>)
    requires AllWritable(es) && es != []
    ensures SeqBytes(es) + tail == InstrBytes(es[0]) + (SeqBytes(es[1..]) + tail)
    ensures (SeqBytes(es) + tail)[0] == InstrBytes(es[0])[0]
  {
    OpcodeGoesOn(es[0]);
    hide InstrBytes;
    Associate(InstrBytes(es[0]), SeqBytes(es[1..]), tail);
  }

  lemma StopsThere(types: Types, acc: seq<Instr>, tail: seq<byte>)
    requires Stops(tail)
    ensures ReadExpr(types, acc, tail) == Ok(acc, tail)
  {
  }

  /** Instructions of one byte cannot be read before f from the bytes of f alone. */
  lemma {:induction false} Shifted(types: Types, acc: seq<Instr>, q: seq<Instr>, f: seq<Instr>, js: seq<Instr>,
      tail: seq<byte>)
    requires AllWritable(f) && Stops(tail) && q != [] && AllOneByte(q)
    requires |js| >= |q| && js[..|q|] == q && AllBack(types, f, js[|q|..])
    ensures var r := ReadExpr(types, acc, SeqBytes(f) + tail); !(r.Ok? && r.value == acc + js)
    decreases |f|
  {
    hide InstrBytes, ReadInstr, Back;
    var input := SeqBytes(f) + tail;
    if f == [] {
      assert input == tail;
      StopsThere(types, acc, tail);
    } else if ReadExpr(types, acc, input).Ok? && ReadExpr(types, acc, input).value == acc + js {
      SeqFront(f, tail);
      OpcodeGoesOn(f[0]);
      var r := ReadInstr(types, input);
      FirstRead(types, acc, js, input);
      assert js[0] == q[0];
      ReadOneByte(types, input);
      FirstByte(f[0]);
      OneByteBytes(types, f[0]);
      InstrRoundTrip(types, f[0], SeqBytes(f[1..]) + tail);
      ShiftOn(types, q, f, js);
      assert acc + js == acc + [q[0]] + js[1..];
      Shifted(types, acc + [q[0]], q[1..] + [f[0]], f[1..], js[1..], tail);
    }
  }

  /** What is read first is the first of what is read. */
  lemma FirstRead(types: Types, acc: seq<Instr>, js: seq<Instr>, input: seq<byte>)
    requires input != [] && input[0] != 0x05 && input[0] != 0x0B
    requires ReadExpr(types, acc, input).Ok? && ReadExpr(types, acc, input).value == acc + js
    ensures var r := ReadInstr(types, input);
      r.Ok? && js != [] && js[0] == r.value && ReadExpr(types, acc + [r.value], r.rest) == ReadExpr(types, acc, input)
  {
    hide ReadInstr;
    var r := ReadInstr(types, input);
    ReadExtends(types, acc + [r.value], r.rest);
    assert (acc + js)[|acc|] == r.value;
  }

  lemma ShiftOn(types: Types, q: seq<Instr>, f: seq<Instr>, js: seq<Instr>)
    requires AllWritable(f) && q != [] && f != [] && AllOneByte(q) && f[0] == q[0]
    requires |js| >= |q| && js[..|q|] == q && AllBack(types, f, js[|q|..])
    ensures AllOneByte(q[1..] + [f[0]]) && |js| > |q| && js[1..][..|q|] == q[1..] + [f[0]]
    ensures AllBack(types, f[1..], js[1..][|q|..])
  {
    assert OneByte(q[0]);
    assert js[|q|] == f[0];
    assert js[1..][|q|..] == js[|q|..][1..];
  }

  // ---------------------------------------------------------------- what a typed select swallows

  /** A count of zero is read from bytes 0x80 and a last 0x00, each of which is an instruction. */
  lemma {:induction false} ZeroSwallows(n: int, h: seq<Instr>, tail: seq<byte>) returns (k: nat)
    requires AllWritable(h) && Stops(tail) && n <= 32
    requires var r := ReadU(n, SeqBytes(h) + tail); r.Ok? && r.value == 0
    ensures 1 <= k <= |h| && AllOneByte(h[..k]) && AllWritable(h[k..])
    ensures ReadU(n, SeqBytes(h) + tail).rest == SeqBytes(h[k..]) + tail
    decreases |h|
  {
    hide InstrBytes, ReadU;
    var input := SeqBytes(h) + tail;
    ZeroBytes(n, input);
    FrontIsOneByte(h, tail);
    hide SeqBytes;
    k := 1;
    if input[0] == 0x80 {
      var more := ZeroSwallows(n - 7, h[1..], tail);
      k := more + 1;
      OneBefore(h, more);
    } else {
      assert h[..1] == [h[0]];
    }
  }

  lemma OneBefore(h: seq<Instr>, more: nat)
    requires more + 1 <= |h| && OneByte(h[0]) && AllOneByte(h[1..][..more])
    ensures AllOneByte(h[..more + 1]) && h[more + 1..] == h[1..][more..]
  {
    assert h[..more + 1] == [h[0]] + h[1..][..more];
  }

  /** Such a byte in front of a sequence and what stops it is an instruction of the sequence. */
  lemma FrontIsOneByte(h: seq<Instr>, tail: seq<byte>)
    requires AllWritable(h) && Stops(tail)
    requires var input := SeqBytes(h) + tail; input != [] && OneByteCode(input[0])
    ensures h != [] && OneByte(h[0]) && AllWritable(h[1..]) && (SeqBytes(h) + tail)[1..] == SeqBytes(h[1..]) + tail
  {
    hide InstrBytes;
    NothingThenTail(h, tail);
    SeqFront(h, tail);
    FirstByte(h[0]);
    OneByteBytes([], h[0]);
  }

  lemma NothingThenTail(h: seq<Instr>, tail: seq<byte>)
    requires AllWritable(h)
    ensures h == [] ==> SeqBytes(h) + tail == tail
  {
  }

  lemma SmallCount(n: int, input: seq<byte>)
    requires n <= 25 && ReadU(n, input).Ok?
    ensures 0 <= ReadU(n, input).value < 0x200_0000
  {
    ReadUBound(n, input);
    Pow2Monotone(n, 25);
    Pow2Add(16, 9);
    assert Pow2(9) == 512;
    Pow2Of64();
    hide Pow2, ReadU;
  }

  lemma ZeroBytes(n: int, input: seq<byte>)
    requires n <= 32 && ReadU(n, input).Ok? && ReadU(n, input).value == 0
    ensures input != [] && (input[0] == 0 || input[0] == 0x80)
    ensures input[0] == 0 ==> ReadU(n, input).rest == input[1..]
    ensures input[0] == 0x80 ==>
      var r := ReadU(n - 7, input[1..]); r.Ok? && r.value == 0 && r.rest == ReadU(n, input).rest
  {
    hide Pow2;
    if input[0] >= 128 { SmallCount(n - 7, input[1..]); }
  }

  /** The bytes value types have; each is the opcode of an instruction of one byte. */
  predicate IsTypeByte(b: byte) { 0x7B <= b <= 0x7F || b == 0x70 || b == 0x6F }

  lemma ReadTypeByte(input: seq<byte>)
    requires ReadValtype(input).Ok?
    ensures input != [] && IsTypeByte(input[0]) && ReadValtype(input).rest == input[1..]
  {
    assert Pow2(6) == 64 && Pow2(7) == 128;
    SevenBitsOnly(input);
  }

  lemma SevenBitsOnly(input: seq<byte>)
    requires ReadS(7, input).Ok?
    ensures input != [] && input[0] < 128 && ReadS(7, input).rest == input[1..]
    ensures var b: int := input[0]; ReadS(7, input).value == if b < 64 then b else b - 128
  {
  }

  lemma ValtypesStep(vts: seq<ValType>, rest: seq<byte>)
    requires vts != []
    ensures Map(ValtypeByte, vts) + rest == [ValtypeByte(vts[0])] + (Map(ValtypeByte, vts[1..]) + rest)
  {
    assert Map(ValtypeByte, vts) == [ValtypeByte(vts[0])] + Map(ValtypeByte, vts[1..]);
  }

  /** Types are read back one by one, and more are read after them. */
  lemma {:induction false} ValtypesLoop(vts: seq<ValType>, more: nat, acc: seq<ValType>, rest: seq<byte>)
    ensures VectorLoop(ReadValtype, |vts| + more, Map(ValtypeByte, vts) + rest, acc)
         == VectorLoop(ReadValtype, more, rest, acc + vts)
  {
    hide ReadValtype, ValtypeByte;
    if vts == [] {
      assert Map(ValtypeByte, vts) + rest == rest && acc + vts == acc;
    } else {
      var tail := Map(ValtypeByte, vts[1..]) + rest;
      ValtypesStep(vts, rest);
      ValtypeRoundTrip(vts[0], tail);
      ValtypesLoop(vts[1..], more, acc + [vts[0]], rest);
      assert acc + [vts[0]] + vts[1..] == acc + vts;
    }
  }

  lemma CountRead(b: byte, rest: seq<byte>)
    requires b < 128
    ensures ReadU32([b] + rest) == Ok(b, rest)
  {
    assert ([b] + rest)[1..] == rest;
  }

  /** The first type stands for the number of all: one type too many is read, from the next instruction. */
  lemma SomeSwallow(vts: seq<ValType>, rest: seq<byte>)
    requires vts != []
    requires var r := Vector(ReadValtype, Map(ValtypeByte, vts) + rest); r.Ok? && r.value == vts
    ensures rest != [] && IsTypeByte(rest[0]) && Vector(ReadValtype, Map(ValtypeByte, vts) + rest).rest == rest[1..]
  {
    var b, others := ValtypeByte(vts[0]), Map(ValtypeByte, vts[1..]) + rest;
    ValtypesStep(vts, rest);
    CountRead(b, others);
    hide ReadValtype, ValtypeByte, ReadU32, VectorLoop;
    VectorCounts(ReadValtype, b, others, []);
    assert b == |vts[1..]| + 1;
    ValtypesLoop(vts[1..], 1, [], rest);
    OneMore(rest, [] + vts[1..]);
  }

  lemma OneMore(rest: seq<byte>, acc: seq<ValType>)
    requires VectorLoop(ReadValtype, 1, rest, acc).Ok?
    ensures rest != [] && IsTypeByte(rest[0]) && VectorLoop(ReadValtype, 1, rest, acc).rest == rest[1..]
  {
    ReadTypeByte(rest);
  }

  /** A typed select read as itself swallows at least one of the instructions behind it, and whole ones. */
  lemma SelectSwallows(types: Types, vts: seq<ValType>, h: seq<Instr>, tail: seq<byte>) returns (k: nat)
    requires AllWritable(h) && Stops(tail)
    requires var r := ReadFlat(types, 0x1C, Map(ValtypeByte, vts) + (SeqBytes(h) + tail));
      r.Ok? && r.value == Select(Some(vts))
    ensures 1 <= k <= |h| && AllOneByte(h[..k]) && AllWritable(h[k..])
    ensures ReadFlat(types, 0x1C, Map(ValtypeByte, vts) + (SeqBytes(h) + tail)).rest == SeqBytes(h[k..]) + tail
  {
    SelectIsVector(types, vts, SeqBytes(h) + tail);
    hide ReadValtype, ValtypeByte, InstrBytes, ReadU, Vector, ReadFlat, SeqBytes;
    if vts == [] {
      NoTypes(SeqBytes(h) + tail);
      NoneSwallow(SeqBytes(h) + tail);
      k := ZeroSwallows(32, h, tail);
    } else {
      SomeSwallow(vts, SeqBytes(h) + tail);
      FrontIsOneByte(h, tail);
      k := 1;
      assert h[..1] == [h[0]];
    }
  }

  lemma NoTypes(rest: seq<byte>)
    ensures Map(ValtypeByte, []) + rest == rest
  {
  }

  lemma SelectIsVector(types: Types, vts: seq<ValType>, rest: seq<byte>)
    requires var r := ReadFlat(types, 0x1C, Map(ValtypeByte, vts) + rest); r.Ok? && r.value == Select(Some(vts))
    ensures var r := Vector(ReadValtype, Map(ValtypeByte, vts) + rest);
      r.Ok? && r.value == vts && r.rest == ReadFlat(types, 0x1C, Map(ValtypeByte, vts) + rest).rest
  {
    hide Vector, ReadValtype;
  }

  lemma NoneSwallow(rest: seq<byte>)
    requires var r := Vector(ReadValtype, rest); r.Ok? && r.value == []
    ensures var r := ReadU(32, rest); r.Ok? && r.value == 0 && Vector(ReadValtype, rest).rest == r.rest
  {
    hide ReadValtype, ReadU;
    var count := ReadU32(rest);
    VectorCounts(ReadValtype, count.value, count.rest, []);
    CountIsZero(rest);
  }

  lemma CountIsZero(rest: seq<byte>)
    requires ReadU32(rest).Ok? && ReadU32(rest).value == 0
    ensures ReadU(32, rest).Ok? && ReadU(32, rest).value == 0 && ReadU(32, rest).rest == ReadU32(rest).rest
  {
    ReadUBound(32, rest);
    Pow2Of64();
  }

  // ---------------------------------------------------------------- whole expressions

  /** A block type that is read as it should come back is readable, and is read from its own bytes. */
  lemma TypeOnly(types: Types, bt: Option<BlockType>, rest: seq<byte>)
    requires BlockTypeWritable(bt) && BlockTypeKnown(types, bt)
    requires var r := ReadBlockType(types, BlockTypeBytes(bt) + rest); r.Ok? && r.value == ResolveBt(types, bt).value
    ensures BlockTypeReadable(types, bt)
    ensures ReadBlockType(types, BlockTypeBytes(bt) + rest) == Ok(ResolveBt(types, bt).value, rest)
  {
    hide ReadBlockType, UBytes, TopGroup, IsByteOf;
    BlockTypeRoundTrip(types, bt, rest);
    if bt.Some? && bt.value.idx.Some? { TypeIndexRead(types, bt.value.idx.value, rest); }
  }

  predicate TypedSelect(i: Instr) { i.Select? && i.types.Some? }

  /** One instruction that is read as it should come back comes back, or is a typed select. */
  lemma {:induction false} InstrOnly(types: Types, i: Instr, rest: seq<byte>)
    requires Writable(i)
    requires var r := ReadInstr(types, InstrBytes(i) + rest); r.Ok? && Back(types, i, r.value)
    ensures Encodable(types, i) || TypedSelect(i)
    decreases i, 2
  {
    if i.Block? || i.Loop? {
      BlockOnly(types, i, rest);
    } else if i.IfElse? {
      IfOnly(types, i, rest);
    } else if !Encodable(types, i) {
      hide Immediates, Opcode;
      FlatBytes(types, i, rest);
      FlatNotBack(types, i, rest);
    }
  }

  lemma FlatBytes(types: Types, i: Instr, rest: seq<byte>)
    requires Writable(i) && !i.Block? && !i.Loop? && !i.IfElse?
    ensures ReadInstr(types, InstrBytes(i) + rest) == ReadFlat(types, Opcode(i), Immediates(i) + rest)
  {
    hide Immediates, Opcode, ReadFlat;
    var bytes := Immediates(i) + rest;
    assert InstrBytes(i) + rest == [Opcode(i)] + bytes;
    assert ([Opcode(i)] + bytes)[1..] == bytes;
    OpcodeFlat(i);
  }

  lemma {:induction false} BlockOnly(types: Types, i: Instr, rest: seq<byte>)
    requires (i.Block? || i.Loop?) && Writable(i)
    requires var r := ReadInstr(types, InstrBytes(i) + rest); r.Ok? && Back(types, i, r.value)
    ensures Encodable(types, i)
    decreases i, 1
  {
    hide BlockTypeBytes, SeqBytes, ReadBlockType, ReadExpr, ResolveBt, BlockTypeReadable;
    var tail := [END] + rest;
    var body := SeqBytes(i.body) + tail;
    var bytes := BlockTypeBytes(i.bt) + body;
    assert InstrBytes(i) + rest == [if i.Block? then 0x02 else 0x03] + bytes;
    assert ([if i.Block? then 0x02 else 0x03] + bytes)[1..] == bytes;
    var j := ReadInstr(types, InstrBytes(i) + rest).value;
    assert j.bt == ResolveBt(types, i.bt);
    TypeOnly(types, i.bt, body);
    assert [] + j.body == j.body;
    SeqOnly(types, [], i.body, j.body, tail);
  }

  lemma {:induction false} IfOnly(types: Types, i: Instr, rest: seq<byte>)
    requires i.IfElse? && Writable(i)
    requires var r := ReadInstr(types, InstrBytes(i) + rest); r.Ok? && Back(types, i, r.value)
    ensures Encodable(types, i)
    decreases i, 1
  {
    var tail := ElseBytes(i.els, rest);
    CodecProofs.IfBytes(i, rest);
    hide BlockTypeBytes, SeqBytes, ReadBlockType, ReadExpr, ReadElse, InstrBytes, ResolveBt, BlockTypeReadable, AllBack;
    var thn := SeqBytes(i.thn) + tail;
    var bytes := BlockTypeBytes(i.bt) + thn;
    assert ([0x04] + bytes)[1..] == bytes;
    var j := ReadInstr(types, InstrBytes(i) + rest).value;
    var body := ReadExpr(types, [], ReadBlockType(types, bytes).rest);
    ElseKeeps(types, ReadBlockType(types, bytes).value, body.value, body.rest);
    TypeOnly(types, i.bt, thn);
    assert [] + j.thn == j.thn;
    SeqOnly(types, [], i.thn, j.thn, tail);
    SeqRoundTrip(types, [], i.thn, tail);
    ElseOnly(types, ResolveBt(types, i.bt).value, j.thn, i.els, rest);
  }

  /** Reading the rest of a conditional keeps what was read before. */
  lemma ElseKeeps(types: Types, bt: BlockType, thn: seq<Instr>, input: seq<byte>)
    ensures var r := ReadElse(types, bt, thn, input);
      r.Ok? ==> r.value.IfElse? && r.value.bt == Some(bt) && r.value.thn == thn
  {
    hide ReadExpr;
  }

  lemma {:induction false} ElseOnly(types: Types, bt: BlockType, thn: seq<Instr>, els: seq<Instr>, rest: seq<byte>)
    requires AllWritable(els)
    requires var r := ReadElse(types, bt, thn, ElseBytes(els, rest));
      r.Ok? && r.value.IfElse? && AllBack(types, els, r.value.els)
    ensures AllEncodable(types, els)
    decreases els, 1
  {
    hide SeqBytes, ReadExpr;
    if els != [] {
      var end := [END] + rest;
      var js := ReadElse(types, bt, thn, ElseBytes(els, rest)).value.els;
      assert ElseBytes(els, rest)[1..] == SeqBytes(els) + end;
      assert [] + js == js;
      SeqOnly(types, [], els, js, end);
    }
  }

  lemma {:induction false} SeqOnly(types: Types, acc: seq<Instr>, es: seq<Instr>, js: seq<Instr>, tail: seq<byte>)
    requires AllWritable(es) && Stops(tail) && AllBack(types, es, js)
    requires var r := ReadExpr(types, acc, SeqBytes(es) + tail); r.Ok? && r.value == acc + js
    ensures AllEncodable(types, es)
    decreases es, 0
  {
    hide InstrBytes, ReadInstr, Back, Resolve;
    if es != [] {
      var input, after := SeqBytes(es) + tail, SeqBytes(es[1..]) + tail;
      SeqFront(es, tail);
      OpcodeGoesOn(es[0]);
      FirstRead(types, acc, js, input);
      hide ReadExpr;
      InstrOnly(types, es[0], after);
      if Encodable(types, es[0]) {
        InstrRoundTrip(types, es[0], after);
        assert acc + js == acc + [js[0]] + js[1..];
        SeqOnly(types, acc + [js[0]], es[1..], js[1..], tail);
      } else {
        SelectTooShort(types, acc, es, js, tail);
      }
    }
  }

  /** After a typed select read as itself the rest does not suffice. */
  lemma SelectTooShort(types: Types, acc: seq<Instr>, es: seq<Instr>, js: seq<Instr>, tail: seq<byte>)
    requires AllWritable(es) && Stops(tail) && AllBack(types, es, js) && es != [] && TypedSelect(es[0])
    requires var r := ReadInstr(types, SeqBytes(es) + tail);
      r.Ok? && r.value == js[0] && ReadExpr(types, acc + [r.value], r.rest).Ok?
    ensures var r := ReadInstr(types, SeqBytes(es) + tail);
      ReadExpr(types, acc + [r.value], r.rest).value != acc + js
  {
    hide ReadExpr, InstrBytes;
    var h := es[1..];
    SeqFront(es, tail);
    var rest := SeqBytes(h) + tail;
    FlatBytes(types, es[0], rest);
    SelectShape(es[0]);
    var k := SelectSwallows(types, es[0].types.value, h, tail);
    BackSplits(types, h, js[1..], k);
    Shifted(types, acc + [js[0]], h[..k], h[k..], js[1..], tail);
    assert acc + js == acc + [js[0]] + js[1..];
  }

  lemma SelectShape(i: Instr)
    requires TypedSelect(i)
    ensures Opcode(i) == 0x1C && Immediates(i) == Map(ValtypeByte, i.types.value)
  {
  }

  lemma {:induction false} BackSplits(types: Types, es: seq<Instr>, js: seq<Instr>, k: nat)
    requires AllWritable(es) && AllBack(types, es, js) && k <= |es| && AllOneByte(es[..k])
    ensures AllWritable(es[k..]) && |js| >= k && js[..k] == es[..k] && AllBack(types, es[k..], js[k..])
    decreases k
  {
    if k > 0 {
      assert OneByte(es[..k][0]);
      assert es[1..][..k - 1] == es[..k][1..];
      BackSplits(types, es[1..], js[1..], k - 1);
      assert es[1..][k - 1..] == es[k..] && js[1..][k - 1..] == js[k..];
    } else {
      assert es[0..] == es && js[0..] == js;
    }
  }

  /**
   * read_expr over what write_expr wrote, followed by anything, gives the whole expression back if and only if
   * every instruction in it, at any depth, comes back by itself.
   */
  lemma ExprExactly(types: Types, es: seq<Instr>, end: byte, rest: seq<byte>)
    requires AllWritable(es) && (end == END || end == ELSE)
    ensures var r := ReadExpr(types, [], ExprBytes(es, end) + rest);
      r.Ok? && AllBack(types, es, r.value) <==> AllEncodable(types, es)
  {
    hide SeqBytes, ReadExpr;
    var tail := [end] + rest;
    assert ExprBytes(es, end) + rest == SeqBytes(es) + tail;
    var r := ReadExpr(types, [], SeqBytes(es) + tail);
    if AllEncodable(types, es) {
      SeqRoundTrip(types, [], es, tail);
      ResolveAllIsBack(types, es);
      assert [] + ResolveAll(types, es) == ResolveAll(types, es);
    } else if r.Ok? && AllBack(types, es, r.value) {
      assert [] + r.value == r.value;
      SeqOnly(types, [], es, r.value, tail);
    }
  }
}
