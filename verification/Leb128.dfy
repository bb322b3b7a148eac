/**
 * LEB128 integers, section 5.2.2 of the WebAssembly Core Specification: the readers, the byte
 * strings the writers produce, and that each undoes the other. Values are those of 64-bit words.
 */
module Leb128 {
  import opened Prelude
  import opened Words

  const TWO_64 := 0x1_0000_0000_0000_0000

  /** The signed word congruent to x. */
  function Word(x: int): (w: int64)
    ensures -0x8000_0000_0000_0000 <= x < 0x8000_0000_0000_0000 ==> w == x
  {
    var u := x % TWO_64;
    if u < 0x8000_0000_0000_0000 then u else u - TWO_64
  }

  /** The unsigned reading of a word. */
  function Unsigned(w: int64): nat { if w < 0 then w + TWO_64 else w }

  datatype Failure = TooLong | TooLarge | Malformed | UnexpectedEnd | OutOfBounds

  /** A value and what is left of the input. Raised stands for a host exception escaping the reader. */
  datatype Parsed<+T> = Ok(value: T, rest: seq<byte>) | Err(failure: Failure) | Raised

  // ---------------------------------------------------------------- readers

  function ReadU(n: int, input: seq<byte>): (r: Parsed<int64>)
    ensures r.Ok? ==> |r.rest| < |input| && r.rest == input[|input| - |r.rest|..]
    decreases |input|
  {
    if n <= 0 then Err(TooLong)
    else if input == [] then Err(TooLong)
    else
      var b := input[0];
      var x := b % 128;
      if !(n >= 7 || x < Pow2(n)) then Err(TooLarge)
      else if b < 128 then Ok(x, input[1..])
      else match ReadU(n - 7, input[1..])
        case Ok(i, rest) => Ok(Word(x + 128 * i), rest)
        case other => other
  }

  /** The bits of x from n - 1 to 6 agree. */
  predicate TopBits(n: nat, x: nat)
    requires 1 <= n < 7
  {
    x / Pow2(n - 1) == 0 || x / Pow2(n - 1) == Pow2(8 - n) - 1
  }

  function ReadS(n: int, input: seq<byte>): (r: Parsed<int64>)
    ensures r.Ok? ==> |r.rest| < |input| && r.rest == input[|input| - |r.rest|..]
    decreases |input|
  {
    if n <= 0 then Err(TooLong)
    else if input == [] then Err(TooLong)
    else
      var b := input[0];
      var x := b % 128;
      if !(n >= 7 || TopBits(n, x)) then Err(TooLarge)
      else if b < 128 then Ok(if x < 64 then x else x - 128, input[1..])
      else match ReadS(n - 7, input[1..])
        case Ok(i, rest) => Ok(Word(x + 128 * i), rest)
        case other => other
  }

  // ---------------------------------------------------------------- what the writers produce

  function UBytes(u: nat): (bs: seq<byte>)
    ensures |bs| >= 1
  {
    if u < 128 then [u] else [u % 128 + 128] + UBytes(u / 128)
  }

  function SBytes(i: int): (bs: seq<byte>)
    ensures |bs| >= 1
    decreases if i < 0 then -i else i
  {
    if -64 <= i < 64 then [i % 128] else [i % 128 + 128] + SBytes(i / 128)
  }

  /** The range of signed n-bit integers. */
  predicate InSigned(n: nat, i: int)
    requires n >= 1
  {
    0 - Pow2(n - 1) <= i < Pow2(n - 1)
  }

  // ---------------------------------------------------------------- powers of two

  lemma Pow2Of7(n: nat)
    requires n >= 7
    ensures Pow2(n) == 128 * Pow2(n - 7)
  {
    Pow2Add(7, n - 7);
    assert Pow2(7) == 128;
  }

  lemma Pow2Of64()
    ensures Pow2(7) == 128 && Pow2(16) == 0x1_0000 && Pow2(32) == 0x1_0000_0000 && Pow2(63) == 0x8000_0000_0000_0000
      && Pow2(64) == TWO_64
  {
    assert Pow2(8) == 256;
    Pow2Add(8, 8);
    Pow2Add(16, 16);
    Pow2Add(32, 32);
  }

  // ---------------------------------------------------------------- one group of seven bits

  lemma Regroup(x: int, i: int)
    requires 0 <= x < 128
    ensures (x + 128 * i) % 128 == x && (x + 128 * i) / 128 == i
  {
  }

  lemma ReadUStep(n: nat, b: byte, tail: seq<byte>)
    requires n >= 8 && b >= 128 && ReadU(n - 7, tail).Ok?
    ensures var r := ReadU(n - 7, tail); ReadU(n, [b] + tail) == Ok(Word(b - 128 + 128 * r.value), r.rest)
  {
  }

  lemma ReadSStep(n: nat, b: byte, tail: seq<byte>)
    requires n >= 8 && b >= 128 && ReadS(n - 7, tail).Ok?
    ensures var r := ReadS(n - 7, tail); ReadS(n, [b] + tail) == Ok(Word(b - 128 + 128 * r.value), r.rest)
  {
  }

  /** A successful read that goes on past its first byte. */
  lemma ReadUInverse(n: int, input: seq<byte>)
    requires ReadU(n, input).Ok? && input[0] >= 128
    ensures n >= 8 && ReadU(n - 7, input[1..]).Ok? && input == [input[0]] + input[1..]
  {
  }

  lemma ReadSInverse(n: int, input: seq<byte>)
    requires ReadS(n, input).Ok? && input[0] >= 128
    ensures n >= 8 && ReadS(n - 7, input[1..]).Ok? && input == [input[0]] + input[1..]
  {
  }

  lemma UBytesStep(u: nat, rest: seq<byte>)
    requires u >= 128
    ensures UBytes(u) + rest == [u % 128 + 128] + (UBytes(u / 128) + rest)
  {
  }

  lemma SBytesStep(i: int, rest: seq<byte>)
    requires !(-64 <= i < 64)
    ensures SBytes(i) + rest == [i % 128 + 128] + (SBytes(i / 128) + rest)
  {
  }

  const TWO_56 := 0x100_0000_0000_0000

  /** A group above a value of at most 57 bits stays within a word. */
  lemma WordExact(x: int, i: int)
    requires 0 <= x < 128 && -TWO_56 <= i < TWO_56
    ensures Word(x + 128 * i) == x + 128 * i
  {
  }

  lemma UnsignedExact(x: int, i: int)
    requires 0 <= x < 128 && 0 <= i < 2 * TWO_56
    ensures Unsigned(Word(x + 128 * i)) == x + 128 * i
  {
  }

  lemma Pow2Of57(n: nat)
    ensures n <= 57 ==> Pow2(n) <= 2 * TWO_56
    ensures n <= 56 ==> Pow2(n) <= TWO_56
  {
    Pow2Of64();
    Pow2Of7(63);
    Pow2Of7(64);
    if n <= 57 { Pow2Monotone(n, 57); }
    if n <= 56 { Pow2Monotone(n, 56); }
  }

  // ---------------------------------------------------------------- round trips

  lemma ReadULast(n: nat, u: nat, rest: seq<byte>)
    requires 1 <= n && u < Pow2(n) && u < 128
    ensures ReadU(n, [u] + rest) == Ok(u, rest)
  {
  }

  /** read_UN n undoes write_u64 on every value below 2^n and leaves any suffix. */
  lemma {:induction false} ReadUOfBytes(n: nat, u: nat, rest: seq<byte>)
    requires 1 <= n <= 64 && u < Pow2(n)
    ensures ReadU(n, UBytes(u) + rest) == Ok(Word(u), rest)
  {
    if u < 128 {
      ReadULast(n, u, rest);
    } else {
      assert Pow2(7) == 128;
      assert n > 7 by { if n <= 7 { Pow2Monotone(n, 7); } }
      Pow2Of7(n);
      Pow2Of57(n - 7);
      hide ReadU, UBytes, Word, Pow2;
      ReadUOfBytes(n - 7, u / 128, rest);
      UBytesStep(u, rest);
      ReadUStep(n, u % 128 + 128, UBytes(u / 128) + rest);
      assert u % 128 + 128 * (u / 128) == u;
    }
  }

  lemma ReadSLast(n: nat, i: int, rest: seq<byte>)
    requires 1 <= n && InSigned(n, i) && -64 <= i < 64
    ensures ReadS(n, [i % 128] + rest) == Ok(i, rest)
  {
    assert ([i % 128] + rest)[1..] == rest;
    hide Pow2, TopBits;
    if n < 7 { TopBitsAgree(n, i); }
  }

  lemma SignedGroup(n: nat, i: int)
    requires 7 < n <= 64 && InSigned(n, i)
    ensures InSigned(n - 7, i / 128) && Word(i / 128) == i / 128 && i == i % 128 + 128 * (i / 128)
  {
    Pow2Of7(n - 1);
    Pow2Of57(n - 8);
    hide Pow2;
  }

  lemma ReadSMore(n: nat, i: int, rest: seq<byte>)
    requires 7 < n <= 64 && InSigned(n, i) && !(-64 <= i < 64)
    requires ReadS(n - 7, SBytes(i / 128) + rest) == Ok(Word(i / 128), rest)
    ensures ReadS(n, SBytes(i) + rest) == Ok(Word(i), rest)
  {
    hide ReadS, SBytes, Word, InSigned;
    SBytesStep(i, rest);
    ReadSStep(n, i % 128 + 128, SBytes(i / 128) + rest);
    SignedGroup(n, i);
  }

  /** read_SN n undoes write_s64 on every value of the signed n-bit range and leaves any suffix. */
  lemma {:induction false} ReadSOfBytes(n: nat, i: int, rest: seq<byte>)
    requires 1 <= n <= 64 && InSigned(n, i)
    ensures ReadS(n, SBytes(i) + rest) == Ok(Word(i), rest)
    decreases n
  {
    if -64 <= i < 64 {
      ReadSLast(n, i, rest);
    } else {
      SmallPowers();
      assert n > 7 by { if n <= 7 { Pow2Monotone(n - 1, 6); } }
      SignedGroup(n, i);
      hide ReadS, SBytes, Word, InSigned;
      ReadSOfBytes(n - 7, i / 128, rest);
      ReadSMore(n, i, rest);
    }
  }

  lemma SmallPowers()
    ensures Pow2(0) == 1 && Pow2(1) == 2 && Pow2(2) == 4 && Pow2(3) == 8 && Pow2(4) == 16 && Pow2(5) == 32
      && Pow2(6) == 64 && Pow2(7) == 128
  {
  }

  lemma TopBitsAgree(n: nat, i: int)
    requires 1 <= n < 7 && InSigned(n, i) && -64 <= i < 64
    ensures TopBits(n, i % 128)
  {
    SmallPowers();
    hide Pow2;
    assert i % 128 == if i < 0 then i + 128 else i;
    if n == 1 {} else if n == 2 {} else if n == 3 {} else if n == 4 {} else if n == 5 {} else {}
  }

  // ---------------------------------------------------------------- shortest encodings

  /** What read_UN n accepts is below 2^n. */
  lemma {:induction false} ReadUBound(n: int, input: seq<byte>)
    requires n <= 64 && ReadU(n, input).Ok?
    ensures n >= 1 && Unsigned(ReadU(n, input).value) < Pow2(n)
  {
    if input[0] >= 128 {
      ReadUInverse(n, input);
      ReadUBound(n - 7, input[1..]);
      ReadUBoundStep(n, input[0], input[1..]);
      assert input == [input[0]] + input[1..];
    } else {
      assert Pow2(7) == 128;
      hide Pow2;
      if n >= 7 { Pow2Monotone(7, n); }
    }
  }

  lemma ReadUBoundStep(n: nat, b: byte, tail: seq<byte>)
    requires 8 <= n <= 64 && b >= 128 && ReadU(n - 7, tail).Ok? && Unsigned(ReadU(n - 7, tail).value) < Pow2(n - 7)
    ensures ReadU(n, [b] + tail).Ok? && Unsigned(ReadU(n, [b] + tail).value) < Pow2(n)
  {
    hide ReadU, Word, Pow2;
    Pow2Of7(n);
    Pow2Of57(n - 7);
    ReadUStep(n, b, tail);
    UnsignedExact(b - 128, ReadU(n - 7, tail).value);
  }

  /** write_u64 emits the shortest byte string that read_UN accepts for a value. */
  lemma {:induction false} UBytesShortest(n: int, input: seq<byte>)
    requires n <= 64 && ReadU(n, input).Ok?
    ensures var r := ReadU(n, input); |UBytes(Unsigned(r.value))| <= |input| - |r.rest|
  {
    if input[0] >= 128 {
      ReadUInverse(n, input);
      Pow2Of57(n - 7);
      hide ReadU, Word, Pow2, UBytes;
      ReadUBound(n - 7, input[1..]);
      UBytesShortest(n - 7, input[1..]);
      ReadUStep(n, input[0], input[1..]);
      var i: int := ReadU(n - 7, input[1..]).value;
      UnsignedExact(input[0] - 128, i);
      OneMoreByte(input[0] - 128, i);
    }
  }

  lemma OneMoreByte(x: int, i: nat)
    requires 0 <= x < 128
    ensures |UBytes(x + 128 * i)| <= 1 + |UBytes(i)|
  {
    Regroup(x, i);
  }

  /** It takes at most ceil(n / 7) bytes below 2^n. */
  lemma {:induction false} UBytesLength(n: nat, u: nat)
    requires n >= 1 && u < Pow2(n)
    ensures |UBytes(u)| <= (n + 6) / 7
  {
    if u >= 128 {
      assert Pow2(7) == 128;
      assert n > 7 by { if n <= 7 { Pow2Monotone(n, 7); } }
      Pow2Of7(n);
      UBytesLength(n - 7, u / 128);
    }
  }

  /** What read_SN n accepts is in the signed n-bit range. */
  lemma {:induction false} ReadSBound(n: int, input: seq<byte>)
    requires n <= 64 && ReadS(n, input).Ok?
    ensures n >= 1 && InSigned(n, ReadS(n, input).value)
  {
    assert Pow2(6) == 64;
    if input[0] >= 128 {
      ReadSInverse(n, input);
      Pow2Of7(n - 1);
      Pow2Of57(n - 8);
      hide ReadS, Word, Pow2;
      ReadSBound(n - 7, input[1..]);
      ReadSStep(n, input[0], input[1..]);
      WordExact(input[0] - 128, ReadS(n - 7, input[1..]).value);
    } else if n >= 7 {
      Pow2Monotone(6, n - 1);
    } else {
      TopBitsBound(n, input[0] % 128);
    }
  }

  lemma TopBitsBound(n: nat, x: nat)
    requires 1 <= n < 7 && x < 128 && TopBits(n, x)
    ensures InSigned(n, if x < 64 then x else x - 128)
  {
    SmallPowers();
    hide Pow2;
    if n == 1 {} else if n == 2 {} else if n == 3 {} else if n == 4 {} else if n == 5 {} else {}
  }

  /** write_s64 emits the shortest byte string that read_SN accepts for a value. */
  lemma {:induction false} SBytesShortest(n: int, input: seq<byte>)
    requires n <= 64 && ReadS(n, input).Ok?
    ensures var r := ReadS(n, input); |SBytes(r.value)| <= |input| - |r.rest|
  {
    if input[0] >= 128 {
      ReadSInverse(n, input);
      Pow2Of57(n - 8);
      hide ReadS, Word, Pow2;
      ReadSBound(n - 7, input[1..]);
      SBytesShortest(n - 7, input[1..]);
      ReadSStep(n, input[0], input[1..]);
      var i: int := ReadS(n - 7, input[1..]).value;
      WordExact(input[0] - 128, i);
      Regroup(input[0] - 128, i);
      SBytesOneMore(input[0] - 128 + 128 * i);
    }
  }

  lemma SBytesOneMore(i: int)
    ensures |SBytes(i)| <= 1 + |SBytes(i / 128)|
  {
  }

  lemma {:induction false} SBytesLength(n: nat, i: int)
    requires n >= 1 && InSigned(n, i)
    ensures |SBytes(i)| <= (n + 6) / 7
    decreases n
  {
    if !(-64 <= i < 64) {
      assert Pow2(6) == 64;
      assert n > 7 by { if n <= 7 { Pow2Monotone(n - 1, 6); } }
      Pow2Of7(n - 1);
      SBytesLength(n - 7, i / 128);
    }
  }

  // ---------------------------------------------------------------- unsigned bytes read as signed

  /** The most significant group of seven bits. */
  function TopGroup(u: nat): (g: nat)
    ensures g < 128
  {
    if u < 128 then u else TopGroup(u / 128)
  }

  ghost predicate ReadsAs(u: nat, r: Parsed<int64>, rest: seq<byte>) {
    r.Ok? && r.rest == rest && (TopGroup(u) < 64 ==> r.value == u) && (TopGroup(u) >= 64 ==> r.value < 0)
  }

  lemma OneGroup(n: nat, u: nat, rest: seq<byte>)
    requires 1 <= n <= 64 && u < Pow2(n - 1) && u < 128
    ensures ReadsAs(u, ReadS(n, [u] + rest), rest)
  {
    hide Pow2, TopBits;
    assert ([u] + rest)[1..] == rest && u % 128 == u;
    if n < 7 { LowBits(n, u); }
  }

  lemma LowBits(n: nat, u: nat)
    requires 1 <= n < 7 && u < Pow2(n - 1)
    ensures TopBits(n, u) && u < 64
  {
    assert Pow2(6) == 64;
    hide Pow2;
    Pow2Monotone(n - 1, 6);
  }

  lemma MoreGroupsRead(n: nat, u: nat, rest: seq<byte>, r: Parsed<int64>)
    requires 8 < n <= 64 && u >= 128 && r == ReadS(n - 7, UBytes(u / 128) + rest) && r.Ok?
    ensures var r' := ReadS(n, UBytes(u) + rest); r'.Ok? && r'.rest == r.rest && r'.value == u % 128 + 128 * r.value
  {
    hide ReadS, UBytes, Word, Pow2;
    UBytesStep(u, rest);
    ReadSStep(n, u % 128 + 128, UBytes(u / 128) + rest);
    ReadSBound(n - 7, UBytes(u / 128) + rest);
    Pow2Of57(n - 8);
    WordExact(u % 128, r.value);
  }

  lemma MoreGroups(n: nat, u: nat, rest: seq<byte>, r: Parsed<int64>)
    requires 8 < n <= 64 && u >= 128 && r == ReadS(n - 7, UBytes(u / 128) + rest) && ReadsAs(u / 128, r, rest)
    ensures ReadsAs(u, ReadS(n, UBytes(u) + rest), rest)
  {
    MoreGroupsRead(n, u, rest, r);
    hide ReadS, UBytes;
    assert TopGroup(u) == TopGroup(u / 128);
    assert u == u % 128 + 128 * (u / 128);
  }

  /**
   * read_SN over what write_u64 wrote gives the value back exactly when bit 6 of its top group is
   * clear; otherwise it gives a negative number.
   */
  lemma {:induction false} SignedReadOfUnsigned(n: nat, u: nat, rest: seq<byte>)
    requires 1 <= n <= 64 && u < Pow2(n - 1)
    ensures ReadsAs(u, ReadS(n, UBytes(u) + rest), rest)
  {
    if u < 128 {
      OneGroup(n, u, rest);
    } else {
      assert Pow2(7) == 128;
      assert n > 8 by { if n <= 8 { Pow2Monotone(n - 1, 7); } }
      Pow2Of7(n - 1);
      hide Pow2, ReadS, ReadsAs;
      SignedReadOfUnsigned(n - 7, u / 128, rest);
      MoreGroups(n, u, rest, ReadS(n - 7, UBytes(u / 128) + rest));
    }
  }
}
