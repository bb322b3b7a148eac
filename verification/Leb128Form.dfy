/**
 * LEB128 integers as section 5.2.2 of the WebAssembly Core Specification describes them: which bytes are one, and
 * which integer they are. The readers accept exactly these, and the writers produce such.
 */
module Leb128Form {
  import opened Prelude
  import opened Words
  import opened Leb128

  /** Groups of seven bits; the high bit of a byte says that another follows. */
  predicate Coded(bytes: seq<byte>) {
    bytes != [] && if |bytes| == 1 then bytes[0] < 128 else bytes[0] >= 128 && Coded(bytes[1..])
  }

  /** Least significant group first. */
  function UValue(bytes: seq<byte>): nat {
    if bytes == [] then 0 else bytes[0] % 128 + 128 * UValue(bytes[1..])
  }

  /** The same in two's complement: bit 6 of the last group is the sign. */
  function SValue(bytes: seq<byte>): int
    requires bytes != []
  {
    var x := bytes[0] % 128;
    if |bytes| > 1 then x + 128 * SValue(bytes[1..]) else if x < 64 then x else x - 128
  }

  /** The input up to the first byte that has no other behind it. */
  function Code(input: seq<byte>): (c: seq<byte>)
    ensures |c| <= |input|
  {
    if input == [] then [] else if input[0] < 128 then [input[0]] else [input[0]] + Code(input[1..])
  }

  /** At most ceil(n / 7) bytes, and a value of n bits. */
  predicate IsU(n: int, c: seq<byte>) { Coded(c) && 7 * (|c| - 1) < n && UValue(c) < Pow2(n) }

  predicate IsS(n: int, c: seq<byte>) { Coded(c) && 7 * (|c| - 1) < n && InSigned(n, SValue(c)) }

  lemma CodeStep(input: seq<byte>)
    requires input != [] && input[0] >= 128
    ensures var (c, d) := (Code(input), Code(input[1..]));
      && c[1..] == d && (Coded(c) <==> Coded(d)) && |c| == |d| + 1 && c[0] == input[0]
      && input[|c|..] == input[1..][|d|..]
  {
  }

  lemma UGroup(n: nat, x: nat, u: nat)
    requires n > 7 && x < 128
    ensures x + 128 * u < Pow2(n) <==> u < Pow2(n - 7)
  {
    Pow2Of7(n);
    hide Pow2;
  }

  lemma IsUStep(n: int, input: seq<byte>)
    requires input != [] && input[0] >= 128
    ensures var (c, d) := (Code(input), Code(input[1..]));
      && (IsU(n, c) <==> n > 7 && IsU(n - 7, d))
      && (c != [] && UValue(c) == input[0] % 128 + 128 * UValue(d))
  {
    CodeStep(input);
    hide Code, Pow2;
    if n > 7 { UGroup(n, input[0] % 128, UValue(Code(input[1..]))); }
  }

  /** read_UN n accepts exactly the unsigned n-bit integers of the format, with their value. */
  lemma {:induction false} ReadUExactly(n: int, input: seq<byte>)
    requires n <= 64
    ensures var (r, c) := (ReadU(n, input), Code(input));
      if IsU(n, c) then r == Ok(Word(UValue(c)), input[|c|..]) else r.Err?
    decreases |input|
  {
    if n > 0 && input != [] {
      if input[0] < 128 {
        LastU(n, input);
      } else {
        IsUStep(n, input);
        CodeStep(input);
        ReadUExactly(n - 7, input[1..]);
        hide IsU, Code, Coded;
        MoreU(n, input, UValue(Code(input[1..])), Code(input[1..]));
      }
    }
  }

  lemma LastU(n: nat, input: seq<byte>)
    requires n > 0 && input != [] && input[0] < 128
    ensures var (r, c) := (ReadU(n, input), Code(input));
      if IsU(n, c) then r == Ok(Word(UValue(c)), input[|c|..]) else r.Err?
  {
    assert Pow2(7) == 128;
    hide Pow2;
    if n >= 7 { Pow2Monotone(7, n); }
    assert UValue([input[0]]) == input[0];
  }

  lemma MoreU(n: nat, input: seq<byte>, u: nat, d: seq<byte>)
    requires 0 < n <= 64 && input != [] && input[0] >= 128 && d == Code(input[1..]) && u == UValue(d)
    requires if IsU(n - 7, d) then ReadU(n - 7, input[1..]) == Ok(Word(u), input[1..][|d|..])
      else ReadU(n - 7, input[1..]).Err?
    ensures if n > 7 && IsU(n - 7, d)
      then ReadU(n, input) == Ok(Word(input[0] % 128 + 128 * u), input[1..][|d|..]) else ReadU(n, input).Err?
  {
    hide Code, UValue, Word;
    if n > 7 && IsU(n - 7, d) {
      Pow2Of57(n - 7);
      SmallWord(u);
    }
  }

  lemma SmallWord(u: nat)
    requires u < 2 * TWO_56
    ensures Word(u) == u
  {
  }

  lemma SGroup(n: nat, x: nat, i: int)
    requires n > 7 && x < 128
    ensures InSigned(n, x + 128 * i) <==> InSigned(n - 7, i)
  {
    Pow2Of7(n - 1);
    hide Pow2;
  }

  lemma IsSStep(n: int, input: seq<byte>)
    requires input != [] && input[0] >= 128
    ensures var (c, d) := (Code(input), Code(input[1..]));
      && (IsS(n, c) <==> n > 7 && IsS(n - 7, d))
      && (d != [] ==> SValue(c) == input[0] % 128 + 128 * SValue(d))
  {
    CodeStep(input);
    hide Code, InSigned;
    var d := Code(input[1..]);
    if n > 7 && d != [] { SGroup(n, input[0] % 128, SValue(d)); }
  }

  /** read_SN n accepts exactly the signed n-bit integers of the format, with their value. */
  lemma {:induction false} ReadSExactly(n: int, input: seq<byte>)
    requires n <= 64
    ensures var (r, c) := (ReadS(n, input), Code(input));
      if IsS(n, c) then r == Ok(SValue(c), input[|c|..]) else r.Err?
    decreases |input|
  {
    if n > 0 && input != [] {
      if input[0] < 128 {
        LastS(n, input);
      } else {
        IsSStep(n, input);
        CodeStep(input);
        ReadSExactly(n - 7, input[1..]);
        hide IsS, Code, Coded;
        MoreS(n, input, Code(input[1..]));
      }
    }
  }

  lemma LastS(n: nat, input: seq<byte>)
    requires 0 < n <= 64 && input != [] && input[0] < 128
    ensures var (r, c) := (ReadS(n, input), Code(input));
      if IsS(n, c) then r == Ok(SValue(c), input[|c|..]) else r.Err?
  {
    var x: int := input[0];
    var v: int := if x < 64 then x else x - 128;
    assert Code(input) == [input[0]] && SValue([input[0]]) == v;
    SmallPowers();
    hide Pow2, TopBits, Code, SValue;
    if n >= 7 {
      Pow2Monotone(6, n - 1);
      assert InSigned(n, v);
    } else {
      if TopBits(n, x) { TopBitsBound(n, x); }
      if InSigned(n, v) {
        TopBitsAgree(n, v);
        assert v % 128 == x;
      }
    }
  }

  lemma MoreS(n: nat, input: seq<byte>, d: seq<byte>)
    requires 0 < n <= 64 && input != [] && input[0] >= 128 && d == Code(input[1..])
    requires if IsS(n - 7, d) then ReadS(n - 7, input[1..]) == Ok(SValue(d), input[1..][|d|..])
      else ReadS(n - 7, input[1..]).Err?
    ensures if n > 7 && IsS(n - 7, d)
      then ReadS(n, input) == Ok(input[0] % 128 + 128 * SValue(d), input[1..][|d|..]) else ReadS(n, input).Err?
  {
    hide Code, SValue, TopBits, Word;
    if n > 7 && IsS(n - 7, d) {
      Pow2Of57(n - 8);
      WordExact(input[0] % 128, SValue(d));
    }
  }

  /** What the writers produce is such an encoding of the integer written. */
  lemma {:induction false} UBytesForm(u: nat)
    ensures Coded(UBytes(u)) && UValue(UBytes(u)) == u
  {
    if u >= 128 {
      UBytesForm(u / 128);
      assert UBytes(u)[1..] == UBytes(u / 128);
    } else {
      assert UValue([u]) == u;
    }
  }

  lemma {:induction false} SBytesForm(i: int)
    ensures Coded(SBytes(i)) && SValue(SBytes(i)) == i
    decreases if i < 0 then -i else i
  {
    if !(-64 <= i < 64) {
      SBytesForm(i / 128);
      assert SBytes(i)[1..] == SBytes(i / 128);
    }
  }
}
