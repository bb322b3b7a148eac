/** What the encoder writes, the parser reads back. */
module CodecProofs {
  import opened Prelude
  import opened Words
  import opened Leb128
  import opened BinaryAst
  import opened BinaryParser
  import opened BinaryEncoder

  // ---------------------------------------------------------------- integers, vectors, types

  lemma U32RoundTrip(k: u32, rest: seq<byte>)
    ensures ReadU32(UBytes(k) + rest) == Ok(k, rest)
  {
    Pow2Of64();
    hide Pow2, ReadU, UBytes;
    ReadUOfBytes(32, k, rest);
  }

  lemma InS32(n: int32)
    ensures InSigned(32, n)
  {
    Pow2Of64();
    assert Pow2(32) == 2 * Pow2(31);
  }

  lemma S32RoundTrip(n: int32, rest: seq<byte>)
    ensures ReadS32(SBytes(n) + rest) == Ok(n, rest)
  {
    hide ReadS, SBytes, InSigned;
    InS32(n);
    ReadSOfBytes(32, n, rest);
  }

  lemma S64RoundTrip(n: int64, rest: seq<byte>)
    ensures ReadS(64, SBytes(n) + rest) == Ok(n, rest)
  {
    Pow2Of64();
    hide Pow2, ReadS, SBytes;
    ReadSOfBytes(64, n, rest);
  }

  lemma LeStep(n: nat, bits: nat, rest: seq<byte>)
    requires n > 0
    ensures LeBytes(n, bits) + rest == [bits % 256] + (LeBytes(n - 1, bits / 256) + rest)
  {
  }

  lemma {:induction false} LeRoundTrip(n: nat, bits: nat, rest: seq<byte>)
    requires bits < Pow256(n)
    ensures ReadLe(n, LeBytes(n, bits) + rest) == Ok(bits, rest)
  {
    if n == 0 {
      assert LeBytes(n, bits) + rest == rest;
    } else {
      assert bits / 256 < Pow256(n - 1);
      LeStep(n, bits, rest);
      hide LeBytes, Pow256;
      var tail := LeBytes(n - 1, bits / 256) + rest;
      LeRoundTrip(n - 1, bits / 256, rest);
      assert ([bits % 256] + tail)[1..] == tail;
    }
  }

  lemma {:induction false} IndicesRoundTrip(xs: seq<u32>, acc: seq<u32>, rest: seq<byte>)
    ensures VectorLoop(ReadU32, |xs|, Concat(IndexBytes, xs) + rest, acc) == Ok(acc + xs, rest)
    decreases |xs|
  {
    hide ReadU32, UBytes;
    if xs == [] {
      assert Concat(IndexBytes, xs) + rest == rest && acc + xs == acc;
    } else {
      var tail := Concat(IndexBytes, xs[1..]) + rest;
      IndicesStep(xs, rest);
      hide Concat;
      U32RoundTrip(xs[0], tail);
      IndicesRoundTrip(xs[1..], acc + [xs[0]], rest);
      assert acc + [xs[0]] + xs[1..] == acc + xs;
    }
  }

  lemma IndicesStep(xs: seq<u32>, rest: seq<byte>)
    requires xs != []
    ensures Concat(IndexBytes, xs) + rest == UBytes(xs[0]) + (Concat(IndexBytes, xs[1..]) + rest)
  {
  }

  lemma TargetsRoundTrip(xs: seq<u32>, rest: seq<byte>)
    requires |xs| < 0x1_0000_0000
    ensures Vector(ReadU32, VectorBytes(IndexBytes, xs) + rest) == Ok(xs, rest)
  {
    hide ReadU32, UBytes, VectorLoop, Concat;
    var tail := Concat(IndexBytes, xs) + rest;
    assert VectorBytes(IndexBytes, xs) + rest == UBytes(|xs|) + tail;
    U32RoundTrip(|xs|, tail);
    IndicesRoundTrip(xs, [], rest);
    assert [] + xs == xs;
  }

  lemma ReftypeRoundTrip(ht: HeapType, rest: seq<byte>)
    ensures ReadReftype([ReftypeByte(ht)] + rest) == Ok(ht, rest)
  {
  }

  lemma ValtypeRoundTrip(vt: ValType, rest: seq<byte>)
    ensures ReadValtype([ValtypeByte(vt)] + rest) == Ok(vt, rest)
  {
  }

  lemma S33OfByte(b: byte, rest: seq<byte>)
    requires 64 <= b < 128
    ensures ReadS(33, [b] + rest) == Ok(b - 128, rest)
  {
  }

  lemma S33OfIndex(k: u32, rest: seq<byte>)
    ensures ReadsAs(k, ReadS(33, UBytes(k) + rest), rest)
  {
    Pow2Of64();
    hide Pow2, ReadS, UBytes, ReadsAs;
    SignedReadOfUnsigned(33, k, rest);
  }

  // ---------------------------------------------------------------- what comes back

  /** A block type as the parser gives it: its index replaced by the definition. */
  function ResolveBt(types: Types, bt: Option<BlockType>): Option<BlockType>
    requires BlockTypeKnown(types, bt)
  {
    match bt
    case None => Some(BtRaw(None, [], []))
    case Some(BtRaw(None, params, results)) => bt
    case Some(BtRaw(Some(k), _, _)) => Some(Definition(types, k))
  }

  predicate BlockTypeKnown(types: Types, bt: Option<BlockType>) {
    BlockTypeWritable(bt) && (bt.Some? && bt.value.idx.Some? ==> bt.value.idx.value < |types|)
  }

  /** k is the one byte a block type is written as. */
  predicate IsByteOf(k: nat, bt: BlockType) {
    bt.idx.None? && BlockTypeWritable(Some(bt)) && BlockTypeBytes(Some(bt)) == [k]
  }

  /**
   * Type indices are written unsigned and read signed: bit 6 of the top group is clear, or the definition
   * has the index for its byte.
   */
  predicate BlockTypeReadable(types: Types, bt: Option<BlockType>) {
    && BlockTypeKnown(types, bt)
    && (bt.Some? && bt.value.idx.Some?
      ==> var k := bt.value.idx.value; TopGroup(k) < 64 || IsByteOf(k, Definition(types, k)))
  }

  /** Bytes of block types are read as those types. */
  lemma OneByteRead(types: Types, bt: BlockType, rest: seq<byte>)
    requires bt.idx.None? && BlockTypeWritable(Some(bt))
    ensures ReadBlockType(types, BlockTypeBytes(Some(bt)) + rest) == Ok(bt, rest)
    ensures exists k: byte :: 64 <= k < 128 && IsByteOf(k, bt)
  {
    hide ReadS, ReadValtype;
    if bt.results == [] {
      S33OfByte(0x40, rest);
      assert ([0x40] + rest)[1..] == rest;
      assert IsByteOf(0x40, bt);
    } else {
      var vt := bt.results[0];
      S33OfByte(ValtypeByte(vt), rest);
      ValtypeRoundTrip(vt, rest);
      assert bt.results == [vt];
      assert IsByteOf(ValtypeByte(vt), bt);
    }
  }

  lemma SevenBits(b: byte, tail: seq<byte>)
    requires b >= 64
    ensures ReadS(7, [b] + tail) == if b < 128 then Ok(b - 128, tail) else Err(TooLong)
  {
    assert ([b] + tail)[1..] == tail;
    assert ReadS(0, tail) == Err(TooLong);
  }

  /** Any other byte starts no value type. */
  lemma NoValtype(b: byte, tail: seq<byte>)
    requires b >= 64 && forall vt :: ValtypeByte(vt) != b
    ensures ReadValtype([b] + tail).Err?
  {
    SevenBits(b, tail);
    hide ReadS;
    assert ValtypeByte(ValType.Num(I32)) != b && ValtypeByte(ValType.Num(I64)) != b
      && ValtypeByte(ValType.Num(F32)) != b;
    assert ValtypeByte(ValType.Num(F64)) != b && ValtypeByte(ValType.Num(V128)) != b;
    assert ValtypeByte(Ref(FuncHt)) != b && ValtypeByte(Ref(ExternHt)) != b;
  }

  lemma OtherByteRead(types: Types, k: byte, rest: seq<byte>)
    requires 64 <= k < 128 && forall bt :: !IsByteOf(k, bt)
    ensures ReadBlockType(types, [k] + rest).Err?
  {
    hide ReadS, ReadValtype;
    S33OfByte(k, rest);
    assert !IsByteOf(k, BtRaw(None, [], []));
    forall vt ensures ValtypeByte(vt) != k { assert !IsByteOf(k, BtRaw(None, [], [vt])); }
    NoValtype(k, rest);
  }

  lemma LongIndexRead(types: Types, k: u32, rest: seq<byte>)
    requires k >= 128 && TopGroup(k) >= 64
    ensures ReadBlockType(types, UBytes(k) + rest).Err?
  {
    S33OfIndex(k, rest);
    UBytesStep(k, rest);
    hide ReadS, UBytes, ReadValtype;
    NoValtype(k % 128 + 128, UBytes(k / 128) + rest);
  }

  /** What read_block_type makes of every type index: the definition, another type, or an error. */
  lemma TypeIndexRead(types: Types, k: u32, rest: seq<byte>)
    ensures var r := ReadBlockType(types, UBytes(k) + rest);
      && (TopGroup(k) < 64 ==> r == if k < |types| then Ok(Definition(types, k), rest) else Raised)
      && (TopGroup(k) >= 64 ==> (forall bt :: IsByteOf(k, bt) ==> r == Ok(bt, rest)))
      && (TopGroup(k) >= 64 && (forall bt :: !IsByteOf(k, bt)) ==> r.Err?)
  {
    hide ReadBlockType;
    if TopGroup(k) < 64 {
      SmallIndexRead(types, k, rest);
    } else if k < 128 {
      forall bt | IsByteOf(k, bt) ensures ReadBlockType(types, UBytes(k) + rest) == Ok(bt, rest) {
        OneByteRead(types, bt, rest);
      }
      if forall bt :: !IsByteOf(k, bt) { OtherByteRead(types, k, rest); }
    } else {
      LongIndexRead(types, k, rest);
    }
  }

  lemma SmallIndexRead(types: Types, k: u32, rest: seq<byte>)
    requires TopGroup(k) < 64
    ensures ReadBlockType(types, UBytes(k) + rest) == if k < |types| then Ok(Definition(types, k), rest) else Raised
  {
    hide ReadS, UBytes;
    S33OfIndex(k, rest);
  }

  /**
   * A type index comes back as its definition if and only if bit 6 of its top group is clear, or it is below 128
   * and the definition happens to be the type its byte stands for.
   */
  lemma TypeIndexExactly(types: Types, k: u32, rest: seq<byte>)
    requires k < |types|
    ensures ReadBlockType(types, UBytes(k) + rest) == Ok(Definition(types, k), rest)
       <==> TopGroup(k) < 64 || (k < 128 && IsByteOf(k, Definition(types, k)))
  {
    hide ReadBlockType, UBytes, TopGroup;
    TypeIndexRead(types, k, rest);
    var r := ReadBlockType(types, UBytes(k) + rest);
    if TopGroup(k) >= 64 && r.Ok? {
      var bt :| IsByteOf(k, bt);
      assert r == Ok(bt, rest);
    }
  }

  /** Of the block types that can be written and whose index exists, exactly the readable ones come back, resolved. */
  lemma BlockTypeRoundTrip(types: Types, bt: Option<BlockType>, rest: seq<byte>)
    requires BlockTypeKnown(types, bt)
    ensures ReadBlockType(types, BlockTypeBytes(bt) + rest) == Ok(ResolveBt(types, bt).value, rest)
        <==> BlockTypeReadable(types, bt)
  {
    hide ReadBlockType, UBytes, TopGroup;
    if bt.Some? && bt.value.idx.Some? {
      TypeIndexExactly(types, bt.value.idx.value, rest);
    } else {
      OneByteRead(types, if bt.Some? then bt.value else BtRaw(None, [], []), rest);
    }
  }

  /**
   * What the format can carry: readable block types, alignments below the parser's bound, short tables,
   * known types.
   */
  predicate Encodable(types: Types, i: Instr)
    requires Writable(i)
    decreases i
  {
    match i
    case Block(_, bt, body) => BlockTypeReadable(types, bt) && AllEncodable(types, body)
    case Loop(_, bt, body) => BlockTypeReadable(types, bt) && AllEncodable(types, body)
    case IfElse(_, bt, thn, els) => BlockTypeReadable(types, bt) && AllEncodable(types, thn) && AllEncodable(types, els)
    case BrTable(targets, _) => |targets| < 0x1_0000_0000
    case CallIndirect(_, ty) => ty.idx.value < |types|
    case Memory(m, align, _) => align < MaxAlign(m)
    case Select(vts) => vts.None?
    case _ => true
  }

  predicate AllEncodable(types: Types, es: seq<Instr>)
    requires AllWritable(es)
    decreases es
  {
    es == [] || (Encodable(types, es[0]) && AllEncodable(types, es[1..]))
  }

  /** The instruction as it comes back: labels dropped, type indices resolved. */
  function Resolve(types: Types, i: Instr): Instr
    requires Writable(i) && Encodable(types, i)
    decreases i
  {
    match i
    case Block(_, bt, body) => Block(None, ResolveBt(types, bt), ResolveAll(types, body))
    case Loop(_, bt, body) => Loop(None, ResolveBt(types, bt), ResolveAll(types, body))
    case IfElse(_, bt, thn, els) => IfElse(None, ResolveBt(types, bt), ResolveAll(types, thn), ResolveAll(types, els))
    case CallIndirect(table, ty) => CallIndirect(table, Definition(types, ty.idx.value))
    case _ => i
  }

  function ResolveAll(types: Types, es: seq<Instr>): (r: seq<Instr>)
    requires AllWritable(es) && AllEncodable(types, es)
    ensures |r| == |es|
    decreases es
  {
    if es == [] then [] else [Resolve(types, es[0])] + ResolveAll(types, es[1..])
  }

  // ---------------------------------------------------------------- flat instructions

  lemma PairRoundTrip(j: u32, k: u32, rest: seq<byte>)
    ensures (UBytes(j) + UBytes(k)) + rest == UBytes(j) + (UBytes(k) + rest)
    ensures ReadU32(UBytes(j) + (UBytes(k) + rest)) == Ok(j, UBytes(k) + rest)
    ensures ReadU32(UBytes(k) + rest) == Ok(k, rest)
  {
    hide ReadU32, UBytes;
    U32RoundTrip(j, UBytes(k) + rest);
    U32RoundTrip(k, rest);
  }

  lemma TruncSatRoundTrip(nn: Nn, from: Nn, sx: Sx, rest: seq<byte>)
    ensures ReadFC(UBytes(TruncSatIndex(nn, from, sx)) + rest) == Ok(Instr.Bulk(TruncSat(nn, from, sx)), rest)
  {
    hide ReadU32, UBytes;
    U32RoundTrip(TruncSatIndex(nn, from, sx), rest);
  }

  lemma MemoryInitRoundTrip(i: u32, rest: seq<byte>)
    ensures ReadFC(BulkBytes(MemoryInit(i)) + rest) == Ok(Instr.Bulk(MemoryInit(i)), rest)
  {
    hide ReadU32, UBytes;
    PairRoundTrip(8, i, [0x00] + rest);
    assert BulkBytes(MemoryInit(i)) + rest == (UBytes(8) + UBytes(i)) + ([0x00] + rest);
    assert ([0x00] + rest)[1..] == rest;
  }

  lemma MemoryCopyRoundTrip(rest: seq<byte>)
    ensures ReadFC(BulkBytes(MemoryCopy) + rest) == Ok(Instr.Bulk(MemoryCopy), rest)
  {
    hide ReadU32, UBytes;
    var tail := [0x00] + ([0x00] + rest);
    assert BulkBytes(MemoryCopy) + rest == UBytes(10) + tail;
    U32RoundTrip(10, tail);
    assert tail[1..] == [0x00] + rest && ([0x00] + rest)[1..] == rest;
  }

  lemma MemoryFillRoundTrip(rest: seq<byte>)
    ensures ReadFC(BulkBytes(MemoryFill) + rest) == Ok(Instr.Bulk(MemoryFill), rest)
  {
    hide ReadU32, UBytes;
    assert BulkBytes(MemoryFill) + rest == UBytes(11) + ([0x00] + rest);
    U32RoundTrip(11, [0x00] + rest);
    assert ([0x00] + rest)[1..] == rest;
  }

  lemma BulkRoundTrip(b: Bulk, rest: seq<byte>)
    ensures ReadFC(BulkBytes(b) + rest) == Ok(Instr.Bulk(b), rest)
  {
    hide ReadU32, UBytes, TruncSatIndex;
    match b
    case TruncSat(nn, from, sx) => TruncSatRoundTrip(nn, from, sx, rest);
    case MemoryInit(i) => MemoryInitRoundTrip(i, rest);
    case MemoryCopy => MemoryCopyRoundTrip(rest);
    case MemoryFill => MemoryFillRoundTrip(rest);
    case TableInit(table, elem) => TripleRoundTrip(12, elem, table, rest);
    case TableCopy(i, j) => TripleRoundTrip(14, i, j, rest);
    case DataDrop(i) => PairRoundTrip(9, i, rest);
    case ElemDrop(i) => PairRoundTrip(13, i, rest);
    case TableGrow(i) => PairRoundTrip(15, i, rest);
    case TableSize(i) => PairRoundTrip(16, i, rest);
    case TableFill(i) => PairRoundTrip(17, i, rest);
  }

  lemma TripleRoundTrip(op: u32, j: u32, k: u32, rest: seq<byte>)
    ensures (UBytes(op) + UBytes(j) + UBytes(k)) + rest == UBytes(op) + (UBytes(j) + (UBytes(k) + rest))
    ensures ReadU32(UBytes(op) + (UBytes(j) + (UBytes(k) + rest))) == Ok(op, UBytes(j) + (UBytes(k) + rest))
    ensures ReadU32(UBytes(j) + (UBytes(k) + rest)) == Ok(j, UBytes(k) + rest)
    ensures ReadU32(UBytes(k) + rest) == Ok(k, rest)
  {
    hide ReadU32, UBytes;
    U32RoundTrip(op, UBytes(j) + (UBytes(k) + rest));
    PairRoundTrip(j, k, rest);
  }

  lemma MemoryRoundTrip(m: MemOp, align: u32, offset: u32, rest: seq<byte>)
    requires align < MaxAlign(m)
    ensures ReadMemarg(m, (UBytes(align) + UBytes(offset)) + rest) == Ok(Memory(m, align, offset), rest)
  {
    hide ReadU32, UBytes, MaxAlign;
    PairRoundTrip(align, offset, rest);
  }

  lemma IndirectRoundTrip(types: Types, table: u32, ty: u32, rest: seq<byte>)
    requires ty < |types|
    ensures ReadIndirect(types, false, (UBytes(ty) + UBytes(table)) + rest)
        == Ok(CallIndirect(table, Definition(types, ty)), rest)
  {
    hide ReadU32, UBytes;
    PairRoundTrip(ty, table, rest);
  }

  lemma BrTableRoundTrip(types: Types, targets: seq<u32>, default: u32, rest: seq<byte>)
    requires |targets| < 0x1_0000_0000
    ensures ReadFlat(types, 0x0E, (VectorBytes(IndexBytes, targets) + UBytes(default)) + rest)
        == Ok(BrTable(targets, default), rest)
  {
    hide ReadU32, UBytes, Vector, VectorBytes;
    var tail := UBytes(default) + rest;
    assert (VectorBytes(IndexBytes, targets) + UBytes(default)) + rest == VectorBytes(IndexBytes, targets) + tail;
    TargetsRoundTrip(targets, tail);
    U32RoundTrip(default, rest);
  }

  lemma Pow256Values()
    ensures Pow256(4) == 0x1_0000_0000 && Pow256(8) == 0x1_0000_0000_0000_0000
  {
  }

  lemma FloatRoundTrip(types: Types, i: Instr, rest: seq<byte>)
    requires i.F32Const? || i.F64Const?
    ensures ReadFlat(types, Opcode(i), Immediates(i) + rest) == Ok(i, rest)
  {
    Pow256Values();
    hide ReadLe, LeBytes, Pow256;
    if i.F32Const? { LeRoundTrip(4, i.bits, rest); } else { LeRoundTrip(8, i.wide, rest); }
  }

  lemma ConstRoundTrip(types: Types, i: Instr, rest: seq<byte>)
    requires i.I32Const? || i.I64Const? || i.RefNull?
    ensures ReadFlat(types, Opcode(i), Immediates(i) + rest) == Ok(i, rest)
  {
    hide ReadS, ReadS32, SBytes, ReadReftype;
    if i.I32Const? {
      S32RoundTrip(i.n, rest);
    } else if i.I64Const? {
      S64RoundTrip(i.m, rest);
    } else {
      ReftypeRoundTrip(i.ht, rest);
    }
  }

  lemma IndexRoundTrip(types: Types, op: Indexed, k: u32, rest: seq<byte>)
    ensures ReadFlat(types, IndexedOpcode(op), UBytes(k) + rest) == Ok(Index(op, k), rest)
  {
    hide ReadU32, UBytes;
    U32RoundTrip(k, rest);
  }

  lemma NumericRoundTrip(types: Types, n: Numeric, rest: seq<byte>)
    ensures 0x45 <= NumericOpcode(n) <= 0xC4 && ReadFlat(types, NumericOpcode(n), rest) == Ok(Instr.Num(n), rest)
  {
    NumericTable(n);
    hide NumericOpcode, NumericOf;
  }

  lemma FlatRoundTrip(types: Types, i: Instr, rest: seq<byte>)
    requires Writable(i) && Encodable(types, i) && !i.Block? && !i.Loop? && !i.IfElse?
    ensures ReadFlat(types, Opcode(i), Immediates(i) + rest) == Ok(Resolve(types, i), rest)
  {
    hide ReadMemarg, ReadIndirect, ReadFC, BulkBytes, UBytes, SBytes, LeBytes, VectorBytes, NumericOpcode, NumericOf,
      MEMOPS;
    hide ReadU32, ReadS32, ReadLe, Vector, ReadReftype;
    assert [] + rest == rest;
    if i.I32Const? || i.I64Const? || i.RefNull? {
      ConstRoundTrip(types, i, rest);
    } else if i.F32Const? || i.F64Const? {
      FloatRoundTrip(types, i, rest);
    } else {
      match i
      case Index(op, k) => IndexRoundTrip(types, op, k, rest);
      case BrTable(targets, default) => BrTableRoundTrip(types, targets, default, rest);
      case CallIndirect(table, ty) => IndirectRoundTrip(types, table, ty.idx.value, rest);
      case Memory(m, align, offset) =>
        MemoryRoundTrip(m, align, offset, rest);
        assert MEMOPS[MemIndex(m)] == m;
      case Num(n) => NumericRoundTrip(types, n, rest);
      case Bulk(b) => BulkRoundTrip(b, rest);
      case MemorySize => assert ([0x00] + rest)[1..] == rest;
      case MemoryGrow => assert ([0x00] + rest)[1..] == rest;
      case _ =>
    }
  }

  // ---------------------------------------------------------------- nested expressions

  /** Where read_expr stops: at an else, an end, or the end of the input. */
  predicate Stops(tail: seq<byte>) {
    tail == [] || tail[0] == ELSE || tail[0] == END
  }

  lemma OpcodeGoesOn(i: Instr)
    requires Writable(i)
    ensures |InstrBytes(i)| > 0 && InstrBytes(i)[0] != ELSE && InstrBytes(i)[0] != END
  {
  }

  /** A vector holds as many elements as its count says, each of at least one byte. */
  lemma {:induction false} VectorCounts<T>(elt: Reader<T>, count: nat, input: seq<byte>, acc: seq<T>)
    requires forall i: seq<byte> :: elt(i).Ok? ==> |elt(i).rest| < |i|
    ensures var r := VectorLoop(elt, count, input, acc);
      r.Ok? ==> |r.value| == |acc| + count && |r.rest| + count <= |input|
  {
    if count > 0 && elt(input).Ok? { VectorCounts(elt, count - 1, elt(input).rest, acc + [elt(input).value]); }
  }

  /** A typed select is written without the number of its types, and never comes back with the rest unread. */
  lemma TypedSelectNotBack(types: Types, vts: seq<ValType>, rest: seq<byte>)
    ensures ReadFlat(types, 0x1C, Map(ValtypeByte, vts) + rest) != Ok(Select(Some(vts)), rest)
  {
    hide VectorLoop, ReadU32, ReadValtype, ValtypeByte;
    var input := Map(ValtypeByte, vts) + rest;
    var count := ReadU32(input);
    if count.Ok? { VectorCounts(ReadValtype, count.value, count.rest, []); }
  }

  /** Nor does a table of so many targets that their number does not fit. */
  lemma LongTableNotBack(types: Types, targets: seq<u32>, default: u32, rest: seq<byte>)
    requires |targets| >= 0x1_0000_0000
    ensures var r := ReadFlat(types, 0x0E, VectorBytes(IndexBytes, targets) + UBytes(default) + rest);
      !(r.Ok? && r.value == BrTable(targets, default))
  {
    hide VectorLoop, ReadU32, UBytes, Concat;
    var count := |targets| % 0x1_0000_0000;
    var after := Concat(IndexBytes, targets) + UBytes(default) + rest;
    assert VectorBytes(IndexBytes, targets) + UBytes(default) + rest == UBytes(count) + after;
    U32RoundTrip(count, after);
    VectorCounts(ReadU32, count, after, []);
  }

  lemma AlignmentRefused(m: MemOp, align: u32, offset: u32, rest: seq<byte>)
    requires align >= MaxAlign(m)
    ensures ReadMemarg(m, (UBytes(align) + UBytes(offset)) + rest) == Err(Malformed)
  {
    hide ReadU32, UBytes, MaxAlign;
    PairRoundTrip(align, offset, rest);
  }

  lemma IndirectRaises(types: Types, table: u32, ty: u32, rest: seq<byte>)
    requires ty >= |types|
    ensures ReadIndirect(types, false, (UBytes(ty) + UBytes(table)) + rest).Raised?
  {
    hide ReadU32, UBytes;
    PairRoundTrip(ty, table, rest);
  }

  /** What happens to the instructions of one opcode that do not come back. */
  lemma FlatNotBack(types: Types, i: Instr, rest: seq<byte>)
    requires Writable(i) && !Encodable(types, i) && !i.Block? && !i.Loop? && !i.IfElse?
    ensures var r := ReadFlat(types, Opcode(i), Immediates(i) + rest);
      match i
      case CallIndirect(_, _) => r.Raised?
      case Memory(_, _, _) => r == Err(Malformed)
      case BrTable(_, _) => !(r.Ok? && r.value == i)
      case _ => r != Ok(i, rest)
  {
    hide ReadMemarg, ReadIndirect, ReadFC, BulkBytes, UBytes, SBytes, LeBytes, VectorBytes, NumericOpcode, NumericOf,
      MEMOPS;
    hide ReadU32, ReadS32, ReadLe, Vector, ReadReftype;
    match i
    case BrTable(targets, default) => LongTableNotBack(types, targets, default, rest);
    case CallIndirect(table, ty) => IndirectRaises(types, table, ty.idx.value, rest);
    case Memory(m, align, offset) =>
      AlignmentRefused(m, align, offset, rest);
      assert MEMOPS[MemIndex(m)] == m;
    case Select(Some(vts)) => TypedSelectNotBack(types, vts, rest);
  }

  /** read_instr over what write_instr wrote, followed by anything, gives the instruction back and leaves the rest. */
  lemma {:induction false} InstrRoundTrip(types: Types, i: Instr, rest: seq<byte>)
    requires Writable(i) && Encodable(types, i)
    ensures ReadInstr(types, InstrBytes(i) + rest) == Ok(Resolve(types, i), rest)
    decreases i, 2
  {
    if i.Block? || i.Loop? {
      BlockRoundTrip(types, i, rest);
    } else if i.IfElse? {
      IfRoundTrip(types, i, rest);
    } else {
      hide Immediates, Opcode;
      var bytes := Immediates(i) + rest;
      assert InstrBytes(i) + rest == [Opcode(i)] + bytes;
      assert ([Opcode(i)] + bytes)[1..] == bytes;
      FlatRoundTrip(types, i, rest);
      OpcodeFlat(i);
    }
  }

  lemma OpcodeFlat(i: Instr)
    requires Writable(i) && !i.Block? && !i.Loop? && !i.IfElse?
    ensures Opcode(i) != 0x02 && Opcode(i) != 0x03 && Opcode(i) != 0x04
  {
  }

  lemma {:induction false} BlockRoundTrip(types: Types, i: Instr, rest: seq<byte>)
    requires (i.Block? || i.Loop?) && Writable(i) && Encodable(types, i)
    ensures ReadInstr(types, InstrBytes(i) + rest) == Ok(Resolve(types, i), rest)
    decreases i, 1
  {
    hide BlockTypeBytes, SeqBytes, ReadBlockType, ReadExpr;
    var tail := [END] + rest;
    var body := SeqBytes(i.body) + tail;
    var bytes := BlockTypeBytes(i.bt) + body;
    assert InstrBytes(i) + rest == [if i.Block? then 0x02 else 0x03] + bytes;
    assert ([if i.Block? then 0x02 else 0x03] + bytes)[1..] == bytes;
    BlockTypeRoundTrip(types, i.bt, body);
    SeqRoundTrip(types, [], i.body, tail);
    assert [] + ResolveAll(types, i.body) == ResolveAll(types, i.body);
    assert tail[1..] == rest;
  }

  /** The bytes after a conditional's first branch, up to and including rest. */
  function ElseBytes(els: seq<Instr>, rest: seq<byte>): seq<byte>
    requires AllWritable(els)
  {
    if els == [] then [END] + rest else [ELSE] + (SeqBytes(els) + ([END] + rest))
  }

  lemma IfBytes(i: Instr, rest: seq<byte>)
    requires i.IfElse? && Writable(i)
    ensures InstrBytes(i) + rest == [0x04] + (BlockTypeBytes(i.bt) + (SeqBytes(i.thn) + ElseBytes(i.els, rest)))
  {
    hide BlockTypeBytes, SeqBytes;
    var x, t := BlockTypeBytes(i.bt), SeqBytes(i.thn);
    if i.els == [] {
      Nest([0x04], x, t, [END], rest);
    } else {
      var u := SeqBytes(i.els);
      var e: seq<byte> := [ELSE] + (u + [END]);
      Join(t, u);
      Nest([0x04], x, t, e, rest);
      assert e + rest == [ELSE] + (u + ([END] + rest));
    }
  }

  lemma Nest(o: seq<byte>, x: seq<byte>, t: seq<byte>, e: seq<byte>, rest: seq<byte>)
    ensures (o + x + (t + e)) + rest == o + (x + (t + (e + rest)))
  {
  }

  lemma Join(t: seq<byte>, u: seq<byte>)
    ensures (t + [ELSE]) + (u + [END]) == t + ([ELSE] + (u + [END]))
  {
  }

  lemma {:induction false} IfRoundTrip(types: Types, i: Instr, rest: seq<byte>)
    requires i.IfElse? && Writable(i) && Encodable(types, i)
    ensures ReadInstr(types, InstrBytes(i) + rest) == Ok(Resolve(types, i), rest)
    decreases i, 1
  {
    var tail := ElseBytes(i.els, rest);
    IfBytes(i, rest);
    hide BlockTypeBytes, SeqBytes, ReadBlockType, ReadExpr, ReadElse, InstrBytes;
    var thn := SeqBytes(i.thn) + tail;
    var bytes := BlockTypeBytes(i.bt) + thn;
    assert ([0x04] + bytes)[1..] == bytes;
    BlockTypeRoundTrip(types, i.bt, thn);
    SeqRoundTrip(types, [], i.thn, tail);
    assert [] + ResolveAll(types, i.thn) == ResolveAll(types, i.thn);
    ElseRoundTrip(types, ResolveBt(types, i.bt).value, ResolveAll(types, i.thn), i.els, rest);
  }

  lemma {:induction false} ElseRoundTrip(types: Types, bt: BlockType, thn: seq<Instr>, els: seq<Instr>, rest: seq<byte>)
    requires AllWritable(els) && AllEncodable(types, els)
    ensures ReadElse(types, bt, thn, ElseBytes(els, rest))
        == Ok(IfElse(None, Some(bt), thn, ResolveAll(types, els)), rest)
    decreases els, 1
  {
    hide SeqBytes, ReadExpr;
    var end := [END] + rest;
    assert end[1..] == rest;
    if els != [] {
      assert ElseBytes(els, rest)[1..] == SeqBytes(els) + end;
      SeqRoundTrip(types, [], els, end);
      assert [] + ResolveAll(types, els) == ResolveAll(types, els);
    }
  }

  lemma {:induction false} SeqRoundTrip(types: Types, acc: seq<Instr>, es: seq<Instr>, tail: seq<byte>)
    requires AllWritable(es) && AllEncodable(types, es) && Stops(tail)
    ensures ReadExpr(types, acc, SeqBytes(es) + tail) == Ok(acc + ResolveAll(types, es), tail)
    decreases es, 0
  {
    hide InstrBytes, ReadInstr, Resolve;
    if es == [] {
      assert SeqBytes(es) + tail == tail && acc + ResolveAll(types, es) == acc;
    } else {
      hide ReadExpr;
      var i := Resolve(types, es[0]);
      var rest := SeqBytes(es[1..]) + tail;
      OpcodeGoesOn(es[0]);
      InstrRoundTrip(types, es[0], rest);
      ReadOneMore(types, acc, InstrBytes(es[0]), i, rest);
      SeqRoundTrip(types, acc + [i], es[1..], tail);
      Associate(InstrBytes(es[0]), SeqBytes(es[1..]), tail);
      Associate(acc, [i], ResolveAll(types, es[1..]));
    }
  }

  lemma Associate<T>(a: seq<T>, b: seq<T>, c: seq<T>)
    ensures (a + b) + c == a + (b + c)
  {
  }

  lemma ReadOneMore(types: Types, acc: seq<Instr>, bytes: seq<byte>, i: Instr, rest: seq<byte>)
    requires bytes != [] && bytes[0] != ELSE && bytes[0] != END && ReadInstr(types, bytes + rest) == Ok(i, rest)
    ensures ReadExpr(types, acc, bytes + rest) == ReadExpr(types, acc + [i], rest)
  {
  }

  /**
   * read_expr over what write_expr wrote, followed by anything: the expression comes back and the
   * terminator is left unread.
   */
  lemma ExprRoundTrip(types: Types, es: seq<Instr>, end: byte, rest: seq<byte>)
    requires AllWritable(es) && AllEncodable(types, es) && (end == END || end == ELSE)
    ensures ReadExpr(types, [], ExprBytes(es, end) + rest) == Ok(ResolveAll(types, es), [end] + rest)
  {
    assert ExprBytes(es, end) + rest == SeqBytes(es) + ([end] + rest);
    SeqRoundTrip(types, [], es, [end] + rest);
    assert [] + ResolveAll(types, es) == ResolveAll(types, es);
  }
}
