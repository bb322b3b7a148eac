/**
 * The encoder of the binary format's expressions and code entries. What each writer appends is
 * given by a function; the writers themselves append to a buffer byte by byte.
 */
module BinaryEncoder {
  import opened Prelude
  import opened Words
  import opened Leb128
  import opened BinaryAst

  const END: byte := 0x0B
  const ELSE: byte := 0x05

  // ---------------------------------------------------------------- the bytes

  function LeBytes(n: nat, bits: nat): (bs: seq<byte>)
    ensures |bs| == n
  {
    if n == 0 then [] else [bits % 256] + LeBytes(n - 1, bits / 256)
  }

  function ReftypeByte(ht: HeapType): byte { if ht.FuncHt? then 0x70 else 0x6F }

  function ValtypeByte(vt: ValType): byte {
    match vt
    case Ref(ht) => ReftypeByte(ht)
    case Num(nt) => match nt case I32 => 0x7F case I64 => 0x7E case F32 => 0x7D case F64 => 0x7C case V128 => 0x7B
  }

  function IndexBytes(k: u32): seq<byte> { UBytes(k) }

  function VectorBytes<T>(elt: T -> seq<byte>, xs: seq<T>): seq<byte> {
    UBytes(|xs| % 0x1_0000_0000) + Concat(elt, xs)
  }

  function Concat<T>(elt: T -> seq<byte>, xs: seq<T>): seq<byte> {
    if xs == [] then [] else elt(xs[0]) + Concat(elt, xs[1..])
  }

  /** The block types the encoder accepts: no type, the empty one, one result, or a type index. */
  predicate BlockTypeWritable(bt: Option<BlockType>) {
    bt.None? || bt.value.idx.Some? || (bt.value.params == [] && |bt.value.results| <= 1)
  }

  function BlockTypeBytes(bt: Option<BlockType>): seq<byte>
    requires BlockTypeWritable(bt)
  {
    match bt
    case None => [0x40]
    case Some(BtRaw(Some(idx), _, _)) => UBytes(idx)
    case Some(BtRaw(None, _, results)) => if results == [] then [0x40] else [ValtypeByte(results[0])]
  }

  function TruncSatIndex(nn: Nn, from: Nn, sx: Sx): byte {
    (if nn.S32? then 0 else 4) + (if from.S32? then 0 else 2) + (if sx.S? then 0 else 1)
  }

  function BulkBytes(b: Bulk): seq<byte> {
    match b
    case TruncSat(nn, from, sx) => UBytes(TruncSatIndex(nn, from, sx))
    case MemoryInit(i) => UBytes(8) + UBytes(i) + [0x00]
    case DataDrop(i) => UBytes(9) + UBytes(i)
    case MemoryCopy => UBytes(10) + [0x00, 0x00]
    case MemoryFill => UBytes(11) + [0x00]
    case TableInit(table, elem) => UBytes(12) + UBytes(elem) + UBytes(table)
    case ElemDrop(i) => UBytes(13) + UBytes(i)
    case TableCopy(i, j) => UBytes(14) + UBytes(i) + UBytes(j)
    case TableGrow(i) => UBytes(15) + UBytes(i)
    case TableSize(i) => UBytes(16) + UBytes(i)
    case TableFill(i) => UBytes(17) + UBytes(i)
  }

  /** Instructions the encoder accepts; it asserts on the others. */
  predicate Writable(i: Instr) {
    match i
    case Block(_, bt, body) => BlockTypeWritable(bt) && AllWritable(body)
    case Loop(_, bt, body) => BlockTypeWritable(bt) && AllWritable(body)
    case IfElse(_, bt, thn, els) => BlockTypeWritable(bt) && AllWritable(thn) && AllWritable(els)
    case CallIndirect(_, ty) => ty.idx.Some?
    case ReturnCall(_) => false
    case ReturnCallIndirect(_, _) => false
    case CallRef(_) => false
    case ReturnCallRef(_) => false
    case _ => true
  }

  predicate AllWritable(es: seq<Instr>) {
    es == [] || (Writable(es[0]) && AllWritable(es[1..]))
  }

  function Opcode(i: Instr): byte
    requires Writable(i) && !i.Block? && !i.Loop? && !i.IfElse?
  {
    match i
    case Unreachable => 0x00 case Nop => 0x01 case Return => 0x0F case Drop => 0x1A case RefIsNull => 0xD1
    case MemorySize => 0x3F case MemoryGrow => 0x40
    case Index(op, _) => IndexedOpcode(op)
    case BrTable(_, _) => 0x0E case CallIndirect(_, _) => 0x11 case Select(types) => if types.None? then 0x1B else 0x1C
    case Memory(m, _, _) => 0x28 + MemIndex(m)
    case I32Const(_) => 0x41 case I64Const(_) => 0x42 case F32Const(_) => 0x43 case F64Const(_) => 0x44
    case RefNull(_) => 0xD0
    case Num(n) => NumericTable(n); NumericOpcode(n)
    case Bulk(_) => 0xFC
  }

  /** What follows the opcode of an instruction that nests no expression. */
  function Immediates(i: Instr): seq<byte>
    requires Writable(i) && !i.Block? && !i.Loop? && !i.IfElse?
  {
    match i
    case MemorySize => [0x00]
    case MemoryGrow => [0x00]
    case Index(_, k) => UBytes(k)
    case BrTable(targets, default) => VectorBytes(IndexBytes, targets) + UBytes(default)
    case CallIndirect(table, ty) => UBytes(ty.idx.value) + UBytes(table)
    case Memory(_, align, offset) => UBytes(align) + UBytes(offset)
    case I32Const(n) => SBytes(n)
    case I64Const(n) => SBytes(n)
    case F32Const(bits) => LeBytes(4, bits)
    case F64Const(bits) => LeBytes(8, bits)
    case RefNull(ht) => [ReftypeByte(ht)]
    case Select(Some(types)) => Map(ValtypeByte, types)
    case Bulk(b) => BulkBytes(b)
    case _ => []
  }

  function InstrBytes(i: Instr): seq<byte>
    requires Writable(i)
    decreases i
  {
    match i
    case Block(_, bt, body) => [0x02] + BlockTypeBytes(bt) + ExprBytes(body, END)
    case Loop(_, bt, body) => [0x03] + BlockTypeBytes(bt) + ExprBytes(body, END)
    case IfElse(_, bt, thn, els) =>
      [0x04] + BlockTypeBytes(bt)
      + if els == [] then ExprBytes(thn, END) else ExprBytes(thn, ELSE) + ExprBytes(els, END)
    case _ => [Opcode(i)] + Immediates(i)
  }

  function SeqBytes(es: seq<Instr>): seq<byte>
    requires AllWritable(es)
    decreases es, 0
  {
    if es == [] then [] else InstrBytes(es[0]) + SeqBytes(es[1..])
  }

  function ExprBytes(es: seq<Instr>, end: byte): seq<byte>
    requires AllWritable(es)
    decreases es, 1
  {
    SeqBytes(es) + [end]
  }

  /** Runs of equal neighbours, most recent first, extended by one more element. */
  function AddRun(runs: seq<(byte, nat)>, b: byte): seq<(byte, nat)> {
    if runs != [] && runs[0].0 == b then [(b, runs[0].1 + 1)] + runs[1..] else [(b, 1)] + runs
  }

  function Runs(runs: seq<(byte, nat)>, locals: seq<ValType>): seq<(byte, nat)>
    decreases |locals|
  {
    if locals == [] then runs else Runs(AddRun(runs, ValtypeByte(locals[0])), locals[1..])
  }

  function RunBytes(run: (byte, nat)): seq<byte> { UBytes(run.1 % 0x1_0000_0000) + [run.0] }

  function LocalsBytes(locals: seq<ValType>): seq<byte> {
    VectorBytes(RunBytes, Reverse(Runs([], locals)))
  }

  function CodeBytes(locals: seq<ValType>, body: seq<Instr>): seq<byte>
    requires AllWritable(body)
  {
    var code := LocalsBytes(locals) + ExprBytes(body, END);
    UBytes(|code| % 0x1_0000_0000) + code
  }

  // ---------------------------------------------------------------- the writers

  lemma IfBytes(before: seq<byte>, i: Instr)
    requires Writable(i) && i.IfElse?
    ensures before + InstrBytes(i) == before + [0x04] + BlockTypeBytes(i.bt) +
      (if i.els == [] then ExprBytes(i.thn, END) else ExprBytes(i.thn, ELSE))
        + (if i.els == [] then [] else ExprBytes(i.els, END))
  {
  }

  class Buffer {
    var contents: seq<byte>

    constructor ()
      ensures contents == []
    {
      contents := [];
    }

    method AddByte(b: byte)
      modifies this
      ensures contents == old(contents) + [b]
    {
      contents := contents + [b];
    }

    method AddBuffer(other: Buffer)
      modifies this
      ensures contents == old(contents) + old(other.contents)
    {
      contents := contents + other.contents;
    }

    /** Seven bits at a time from a 64-bit word, shifting logically. */
    method WriteU64(i: int64)
      modifies this
      ensures contents == old(contents) + UBytes(Unsigned(i))
      decreases Unsigned(i)
    {
      var b := Unsigned(i) % 128;
      if 0 <= i < 128 {
        AddByte(b);
      } else {
        AddByte(b + 128);
        WriteU64(Unsigned(i) / 128);
      }
    }

    /** The same, shifting arithmetically. */
    method WriteS64(i: int64)
      modifies this
      ensures contents == old(contents) + SBytes(i)
      decreases if i < 0 then 0 - (i as int) else i as int
    {
      var b := i % 128;
      if -64 <= i < 64 {
        AddByte(b);
      } else {
        AddByte(b + 128);
        WriteS64(i / 128);
      }
    }

    /** An index or length goes through a 32-bit word. */
    method WriteU32OfInt(i: nat)
      modifies this
      ensures contents == old(contents) + UBytes(i % 0x1_0000_0000)
    {
      WriteU64(i % 0x1_0000_0000);
    }

    method WriteLe(n: nat, bits: nat)
      modifies this
      ensures contents == old(contents) + LeBytes(n, bits)
    {
      if n > 0 {
        AddByte(bits % 256);
        WriteLe(n - 1, bits / 256);
      }
    }

    method WriteBlockType(bt: Option<BlockType>)
      requires BlockTypeWritable(bt)
      modifies this
      ensures contents == old(contents) + BlockTypeBytes(bt)
    {
      match bt
      case None => AddByte(0x40);
      case Some(BtRaw(Some(idx), _, _)) => WriteU32OfInt(idx);
      case Some(BtRaw(None, _, results)) =>
        if results == [] { AddByte(0x40); } else { AddByte(ValtypeByte(results[0])); }
    }

    /** The elements go to a buffer of their own, which follows their number. */
    method WriteIndices(indices: seq<u32>)
      modifies this
      ensures contents == old(contents) + VectorBytes(IndexBytes, indices)
    {
      var vector := new Buffer();
      for n := 0 to |indices|
        invariant fresh(vector) && vector.contents == Concat(IndexBytes, indices[..n]) && contents == old(contents)
      {
        vector.WriteU32OfInt(indices[n]);
        ConcatSnoc(IndexBytes, indices[..n], indices[n]);
        assert indices[..n + 1] == indices[..n] + [indices[n]];
      }
      assert indices[..|indices|] == indices;
      WriteU32OfInt(|indices|);
      AddBuffer(vector);
    }

    /** One byte each, without their number. */
    method WriteValtypes(types: seq<ValType>)
      modifies this
      ensures contents == old(contents) + Map(ValtypeByte, types)
    {
      for n := 0 to |types|
        invariant contents == old(contents) + Map(ValtypeByte, types)[..n]
      {
        AddByte(ValtypeByte(types[n]));
      }
    }

    method WriteTwo(j: u32, k: u32)
      modifies this
      ensures contents == old(contents) + (UBytes(j) + UBytes(k))
    {
      hide UBytes;
      WriteU32OfInt(j);
      WriteU32OfInt(k);
    }

    method WriteTargets(targets: seq<u32>, default: u32)
      modifies this
      ensures contents == old(contents) + (VectorBytes(IndexBytes, targets) + UBytes(default))
    {
      hide UBytes, VectorBytes;
      WriteIndices(targets);
      WriteU32OfInt(default);
    }

    method WriteZero(op: u32)
      modifies this
      ensures contents == old(contents) + (UBytes(op) + [0x00])
    {
      hide UBytes;
      WriteU32OfInt(op);
      AddByte(0x00);
    }

    method WriteBulk(b: Bulk)
      modifies this
      ensures contents == old(contents) + BulkBytes(b)
    {
      hide UBytes, TruncSatIndex;
      match b
      case TruncSat(nn, from, sx) => WriteU32OfInt(TruncSatIndex(nn, from, sx));
      case MemoryInit(i) => WriteTwo(8, i); AddByte(0x00);
      case DataDrop(i) => WriteTwo(9, i);
      case MemoryCopy => WriteZero(10); AddByte(0x00);
      case MemoryFill => WriteZero(11);
      case TableInit(table, elem) => WriteTwo(12, elem); WriteU32OfInt(table);
      case ElemDrop(i) => WriteTwo(13, i);
      case TableCopy(i, j) => WriteTwo(14, i); WriteU32OfInt(j);
      case TableGrow(i) => WriteTwo(15, i);
      case TableSize(i) => WriteTwo(16, i);
      case TableFill(i) => WriteTwo(17, i);
    }

    method WriteImmediates(i: Instr)
      requires Writable(i) && !i.Block? && !i.Loop? && !i.IfElse?
      modifies this
      ensures contents == old(contents) + Immediates(i)
    {
      hide UBytes, SBytes, LeBytes, VectorBytes, BulkBytes;
      match i
      case MemorySize => AddByte(0x00);
      case MemoryGrow => AddByte(0x00);
      case Index(_, k) => WriteU32OfInt(k);
      case BrTable(targets, default) => WriteTargets(targets, default);
      case CallIndirect(table, ty) => WriteTwo(ty.idx.value, table);
      case Memory(_, align, offset) => WriteTwo(align, offset);
      case I32Const(n) => WriteS64(n);
      case I64Const(n) => WriteS64(n);
      case F32Const(bits) => WriteLe(4, bits);
      case F64Const(bits) => WriteLe(8, bits);
      case RefNull(ht) => AddByte(ReftypeByte(ht));
      case Select(Some(types)) => WriteValtypes(types);
      case Bulk(b) => WriteBulk(b);
      case _ =>
    }

    method WriteFlat(i: Instr)
      requires Writable(i) && !i.Block? && !i.Loop? && !i.IfElse?
      modifies this
      ensures contents == old(contents) + ([Opcode(i)] + Immediates(i))
    {
      hide Immediates;
      AddByte(Opcode(i));
      WriteImmediates(i);
    }

    method WriteInstr(i: Instr)
      requires Writable(i)
      modifies this
      ensures contents == old(contents) + InstrBytes(i)
      decreases i, 1
    {
      hide Opcode, Immediates, BlockTypeBytes, ExprBytes, UBytes;
      if i.Block? || i.Loop? {
        AddByte(if i.Block? then 0x02 else 0x03);
        WriteBlockType(i.bt);
        WriteExpr(i.body, END);
      } else if i.IfElse? {
        WriteIf(i);
      } else {
        WriteFlat(i);
      }
    }

    method WriteIf(i: Instr)
      requires Writable(i) && i.IfElse?
      modifies this
      ensures contents == old(contents) + InstrBytes(i)
      decreases i, 0
    {
      hide InstrBytes, BlockTypeBytes, ExprBytes, UBytes;
      IfBytes(contents, i);
      AddByte(0x04);
      WriteBlockType(i.bt);
      if i.els == [] {
        WriteExpr(i.thn, END);
      } else {
        WriteExpr(i.thn, ELSE);
        WriteExpr(i.els, END);
      }
    }

    method WriteExpr(es: seq<Instr>, end: byte)
      requires AllWritable(es)
      modifies this
      ensures contents == old(contents) + ExprBytes(es, end)
      decreases es, 1
    {
      WriteSeq(es);
      AddByte(end);
    }

    method WriteSeq(es: seq<Instr>)
      requires AllWritable(es)
      modifies this
      ensures contents == old(contents) + SeqBytes(es)
      decreases es, 0
    {
      hide InstrBytes;
      if es != [] {
        WriteInstr(es[0]);
        WriteSeq(es[1..]);
      }
    }

    method WriteLocals(locals: seq<ValType>)
      modifies this
      ensures contents == old(contents) + LocalsBytes(locals)
    {
      hide UBytes, Runs;
      var compressed := Reverse(Runs([], locals));
      WriteU32OfInt(|compressed|);
      for n := 0 to |compressed|
        invariant contents == old(contents) + UBytes(|compressed| % 0x1_0000_0000) + Concat(RunBytes, compressed[..n])
      {
        WriteU32OfInt(compressed[n].1);
        AddByte(compressed[n].0);
        ConcatSnoc(RunBytes, compressed[..n], compressed[n]);
        assert compressed[..n + 1] == compressed[..n] + [compressed[n]];
      }
      assert compressed[..|compressed|] == compressed;
    }

    /** One entry of the code section: its length, its locals, its body. */
    method WriteCode(locals: seq<ValType>, body: seq<Instr>)
      requires AllWritable(body)
      modifies this
      ensures contents == old(contents) + CodeBytes(locals, body)
    {
      hide LocalsBytes, ExprBytes, UBytes;
      var code := new Buffer();
      code.WriteLocals(locals);
      code.WriteExpr(body, END);
      WriteU32OfInt(|code.contents|);
      AddBuffer(code);
    }
  }

  lemma {:induction false} ConcatSnoc<T>(elt: T -> seq<byte>, xs: seq<T>, x: T)
    ensures Concat(elt, xs + [x]) == Concat(elt, xs) + elt(x)
  {
    if xs == [] {
      assert ([] + [x])[1..] == [];
    } else {
      ConcatSnoc(elt, xs[1..], x);
      assert (xs + [x])[1..] == xs[1..] + [x];
    }
  }
}
