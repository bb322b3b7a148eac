/**
 * The C library's integer parsing. The numeral a string starts with is defined once by Parse, from the
 * grammar of section 7.22.1.4 of ISO C11; the four functions are proved to return its value, or the nearest
 * their type holds, for the word sizes of wasm32: 32 bits for long, 64 bits for long long.
 */
module Strtol {
  import opened Words

  /** Bytes closed by a NUL; a pointer into it is an index. */
  type CString = s: seq<byte> | |s| > 0 && s[|s| - 1] == 0 witness [0]

  const LONG: nat := 0x1_0000_0000
  const LONG_LONG: nat := 0x1_0000_0000_0000_0000
  const EINVAL := 22
  const ERANGE := 34

  // ---------------------------------------------------------------- the grammar

  predicate IsSpace(c: byte) { c == 32 || 9 <= c < 14 }
  predicate IsDecimal(c: byte) { 48 <= c < 58 }
  predicate IsAlpha(c: byte) { 65 <= c < 91 || 97 <= c < 123 }
  predicate IsAlnum(c: byte) { IsAlpha(c) || IsDecimal(c) }

  /** The value of a letter or digit, 36 for everything else. */
  function DigitOf(c: byte): nat {
    if IsDecimal(c) then c - 48 else if 97 <= c < 123 then c - 87 else if 65 <= c < 91 then c - 55 else 36
  }

  function SkipSpaces(s: CString, p: nat): (e: nat)
    requires p < |s|
    ensures p <= e < |s| && !IsSpace(s[e]) && forall k :: p <= k < e ==> IsSpace(s[k])
    decreases |s| - p
  {
    if IsSpace(s[p]) then SkipSpaces(s, p + 1) else p
  }

  /** Where the longest run of digits from p ends. */
  function DigitsEnd(s: CString, p: nat, base: nat): (e: nat)
    requires p < |s| && base <= 36
    ensures p <= e < |s| && DigitOf(s[e]) >= base && forall k :: p <= k < e ==> DigitOf(s[k]) < base
    decreases |s| - p
  {
    if DigitOf(s[p]) < base then DigitsEnd(s, p + 1, base) else p
  }

  function Value(s: CString, p: nat, e: nat, base: nat): nat
    requires p <= e < |s|
  {
    if p == e then 0 else Value(s, p, e - 1, base) * base + DigitOf(s[e - 1])
  }

  /** A hexadecimal prefix, which needs a digit behind it. */
  predicate HexPrefix(s: CString, p: nat)
    requires p < |s|
  {
    s[p] == 48 && (s[p + 1] == 120 || s[p + 1] == 88) && IsHexDigit(s[p + 2])
  }

  predicate IsHexDigit(c: byte) { IsDecimal(c) || 65 <= c < 71 || 97 <= c < 103 }

  datatype Numeral = BadBase | NoDigits | Number(neg: bool, magnitude: nat, end: nat)

  function BaseAt(s: CString, p: nat, base: int): (b: nat)
    requires p < |s| && GoodBase(base)
    ensures 2 <= b <= 36
  {
    if base != 0 then base else if s[p] != 48 then 10 else if HexPrefix(s, p) then 16 else 8
  }

  function DigitsStart(s: CString, p: nat, base: int): (d: nat)
    requires p < |s|
    ensures p <= d < |s|
  {
    if (base == 0 || base == 16) && HexPrefix(s, p) then p + 2 else p
  }

  /** The numeral after spaces and a sign. */
  function Unsigned(s: CString, p: nat, base: int, neg: bool): (n: Numeral)
    requires p < |s| && GoodBase(base)
    ensures n.Number? ==> p < n.end < |s| && n.neg == neg
    ensures !n.BadBase?
  {
    var b := BaseAt(s, p, base);
    var d := DigitsStart(s, p, base);
    var e := DigitsEnd(s, d, b);
    if e == p then NoDigits else Number(neg, Value(s, d, e, b), e)
  }

  predicate GoodBase(base: int) { base == 0 || 2 <= base <= 36 }

  function Parse(s: CString, p: nat, base: int): (n: Numeral)
    requires p < |s|
    ensures n.Number? ==> p < n.end < |s|
  {
    if GoodBase(base) then Signed(s, SkipSpaces(s, p), base) else BadBase
  }

  /** The numeral after spaces. */
  function Signed(s: CString, q: nat, base: int): (n: Numeral)
    requires q < |s| && GoodBase(base)
    ensures n.Number? ==> q < n.end < |s|
    ensures !n.BadBase? && (n.Number? ==> (n.neg <==> s[q] == 45))
  {
    if s[q] == 45 || s[q] == 43 then Unsigned(s, q + 1, base, s[q] == 45) else Unsigned(s, q, base, false)
  }

  /** The parsed integer. */
  function Exact(n: Numeral): int {
    if n.Number? then (if n.neg then -(n.magnitude as int) else n.magnitude) else 0
  }

  // ---------------------------------------------------------------- unsigned parsing

  /** The C expression for a digit, in an unsigned char. */
  function CDigit(c: byte): byte {
    (if c >= 97 then c - 97 + 10 else if c >= 65 then c - 65 + 10 else if c <= 57 then c - 48 else 0xff) % 256
  }

  lemma CDigitIsDigit(c: byte, base: nat)
    requires base <= 36
    ensures CDigit(c) < base <==> DigitOf(c) < base
    ensures DigitOf(c) < base ==> CDigit(c) == DigitOf(c)
  {
  }

  /** v as a word of the given size, read as signed. */
  function AsSigned(v: int, word: nat): int
    requires word > 0
  {
    var u := v % word;
    if 2 * u < word then u else u - word
  }

  /**
   * One more digit by way of the low byte and the rest: the sum is exact, and too big exactly when its
   * upper part is.
   */
  lemma SplitWord(v: nat, base: nat, c: nat, word: nat, x: nat, w: nat)
    requires v < word && word % 256 == 0 && 2 <= base <= 36 && c < base
    requires x == v % 256 * base + c && w == v / 256 * base + x / 256
    ensures v * base + c == 256 * w + x % 256
    ensures w > word / 256 - 1 <==> v * base + c >= word
  {
  }

  class Errno {
    var code: int
  }

  /** Where a function reports how far it read. */
  class Place {
    var at: nat
  }

  method Spaces(s: CString, ptr: nat) returns (nptr: nat)
    requires ptr < |s|
    ensures nptr == SkipSpaces(s, ptr)
  {
    nptr := ptr;
    while IsSpace(s[nptr])
      invariant ptr <= nptr < |s| && SkipSpaces(s, nptr) == SkipSpaces(s, ptr)
      decreases |s| - nptr
    {
      nptr := nptr + 1;
    }
  }

  /** The base, 10, 8 or 16 by the first characters when it is given as 0, and where digits start. */
  method BaseAndPrefix(s: CString, orig: nat, base0: int32) returns (bad: bool, base: int, from: nat)
    requires orig < |s|
    ensures bad <==> !GoodBase(base0)
    ensures !bad ==> base == BaseAt(s, orig, base0) && from == DigitsStart(s, orig, base0)
  {
    bad, base, from := false, base0, orig;
    var skip0x := base == 16 && s[from] == 48;
    if !skip0x {
      if base != 0 {
        if (base - 2) % LONG > 34 {
          return true, base, from;
        }
      } else if s[from] == 48 {
        base, skip0x := 8, true;
      } else {
        base := 10;
      }
    }
    if skip0x && (s[from + 1] == 120 || s[from + 1] == 88) && IsHexDigit(s[from + 2]) {
      from, base := from + 2, 16;
    }
  }

  /** Everything before the digits. */
  method Front(s: CString, ptr: nat, base0: int32) returns (bad: bool, neg: bool, orig: nat, from: nat, base: int)
    requires ptr < |s|
    ensures bad <==> !GoodBase(base0)
    ensures orig < |s| && (!bad ==> Parse(s, ptr, base0) == Unsigned(s, orig, base0, neg))
    ensures !bad ==> base == BaseAt(s, orig, base0) && from == DigitsStart(s, orig, base0)
  {
    hide SkipSpaces, Unsigned;
    neg := false;
    orig := Spaces(s, ptr);
    if s[orig] == 45 {
      neg := true;
      orig := orig + 1;
    } else if s[orig] == 43 {
      orig := orig + 1;
    }
    bad, base, from := BaseAndPrefix(s, orig, base0);
  }

  /**
   * What the unsigned functions return in a word of the given size: the value, its negation modulo the
   * word, or the maximum.
   */
  function UnsignedResult(n: Numeral, word: nat): int
    requires word > 0
  {
    if n.Number? && n.magnitude >= word then word - 1 else Exact(n) % word
  }

  /** errno afterwards. */
  function UnsignedErrno(n: Numeral, word: nat, was: int): int {
    if !n.Number? then EINVAL else if n.magnitude >= word then ERANGE else was
  }

  function EndAfter(n: Numeral, ptr: nat, was: nat): nat {
    if n.BadBase? then was else if n.Number? then n.end else ptr
  }

  /** One digit more in a word, by way of its low byte x and the rest w; also whether the rest has outgrown the word. */
  function Step(v: nat, base: nat, c: nat, word: nat): (r: (nat, bool))
    requires word > 0
    ensures r.0 < word
  {
    var x := v % 256 * base + c;
    var w := v / 256 * base + x / 256;
    ((w * 256 + x % 256) % word, w > (word - 1) / 256)
  }

  /** Digits are accumulated in two parts; the flag stays set once the value has outgrown the word. */
  ghost predicate Accumulated(v: int, overflow: bool, exact: nat, word: nat) {
    && 0 <= v < word && (overflow <==> exact >= word) && (!overflow ==> v == exact)
  }

  /** The new state, given the sum t of the accumulator and the digit. */
  lemma AccumulatedSum(overflow: bool, exact': nat, word: nat, t: nat, v': nat, overflow': bool)
    requires word > 0 && (overflow ==> exact' >= word) && (!overflow ==> exact' == t)
    requires overflow' == (overflow || t >= word) && v' == t % word
    ensures Accumulated(v', overflow', exact', word)
  {
    if t < word { InWord(t, word); }
  }

  lemma Outgrown(exact: nat, base: nat, c: nat)
    requires base >= 1
    ensures exact * base + c >= exact
  {
  }

  /** What a step computes: the sum cut to the word, and whether it was cut. */
  lemma StepIs(v: nat, base: nat, c: nat, word: nat, t: nat)
    requires v < word && word % 256 == 0 && 2 <= base <= 36 && c < base && t == v * base + c
    ensures Step(v, base, c, word) == (t % word, t >= word)
  {
    var x := v % 256 * base + c;
    SplitWord(v, base, c, word, x, v / 256 * base + x / 256);
  }

  lemma AccumulatedStep(v: nat, overflow: bool, exact: nat, word: nat, base: nat, c: nat, exact': nat)
    requires Accumulated(v, overflow, exact, word) && 2 <= base <= 36 && c < base && word % 256 == 0
    requires exact' == exact * base + c
    ensures Accumulated(Step(v, base, c, word).0, overflow || Step(v, base, c, word).1, exact', word)
  {
    hide Step;
    var t := v * base + c;
    StepIs(v, base, c, word, t);
    assert exact' >= exact && (!overflow ==> t == exact') by { Outgrown(exact, base, c); }
    AccumulatedSum(overflow, exact', word, t, t % word, overflow || t >= word);
  }

  lemma InWord(a: nat, word: nat)
    requires a < word
    ensures a % word == a
  {
  }

  lemma UnsignedByDigits(s: CString, orig: nat, base: int32, neg: bool)
    requires orig < |s| && GoodBase(base)
    ensures var b, d := BaseAt(s, orig, base), DigitsStart(s, orig, base);
      var e := DigitsEnd(s, d, b);
      Unsigned(s, orig, base, neg) == if e == orig then NoDigits else Number(neg, Value(s, d, e, b), e)
    ensures DigitsEnd(s, DigitsStart(s, orig, base), BaseAt(s, orig, base)) == orig
        ==> DigitsStart(s, orig, base) == orig
  {
  }

  /** The digits in an unsigned word. */
  method Digits(s: CString, from: nat, base: nat) returns (v: nat, overflow: bool, nptr: nat)
    requires from < |s| && 2 <= base <= 36
    ensures nptr == DigitsEnd(s, from, base) && Accumulated(v, overflow, Value(s, from, nptr, base), LONG)
  {
    hide Accumulated, Step;
    v, overflow, nptr := 0, false, from;
    AccumulatedSum(false, 0, LONG, 0, 0, false);
    while s[nptr] != 0
      invariant from <= nptr < |s| && DigitsEnd(s, nptr, base) == DigitsEnd(s, from, base)
      invariant v < LONG && Accumulated(v, overflow, Value(s, from, nptr, base), LONG)
      decreases |s| - nptr
    {
      CDigitIsDigit(s[nptr], base);
      var c := CDigit(s[nptr]);
      if c >= base {
        break;
      }
      AccumulatedStep(v, overflow, Value(s, from, nptr, base), LONG, base, c, Value(s, from, nptr + 1, base));
      var (v', over) := Step(v, base, c, LONG);
      v, overflow := v', overflow || over;
      nptr := nptr + 1;
    }
  }

  lemma ResultOfWord(v: nat, overflow: bool, m: nat, word: nat, neg: bool, end: nat)
    requires word > 0 && Accumulated(v, overflow, m, word)
    ensures overflow <==> m >= word
    ensures UnsignedResult(Number(neg, m, end), word)
         == if overflow then word - 1 else if neg then -(v as int) % word else v
  {
    if !overflow { InWord(v, word); }
  }

  method Strtoul(s: CString, ptr: nat, endptr: Place?, base0: int32, errno: Errno) returns (r: nat)
    requires ptr < |s|
    modifies errno, endptr
    ensures var n := Parse(s, ptr, base0);
      && r == UnsignedResult(n, LONG)
      && errno.code == UnsignedErrno(n, LONG, old(errno.code))
      && (endptr != null ==> endptr.at == EndAfter(n, ptr, old(endptr.at)))
  {
    hide Unsigned, Accumulated, DigitsStart, BaseAt, DigitsEnd, SkipSpaces;
    var bad, neg, orig, nptr, base := Front(s, ptr, base0);
    if bad {
      errno.code := EINVAL;
      return 0;
    }
    hide Parse;
    UnsignedByDigits(s, orig, base0, neg);
    ghost var from := nptr;
    var v, overflow;
    v, overflow, nptr := Digits(s, nptr, base);
    ResultOfWord(v, overflow, Value(s, from, nptr, base), LONG, neg, nptr);
    if nptr == orig {
      nptr := ptr;
      errno.code := EINVAL;
      v := 0;
    }
    if endptr != null {
      endptr.at := nptr;
    }
    if overflow {
      errno.code := ERANGE;
      return LONG - 1;
    }
    return if neg then -(v as int) % LONG else v;
  }

  // ---------------------------------------------------------------- the 64-bit accumulator is signed

  /** The same step as Step when the accumulator is a signed 64-bit word: shifting it right keeps its sign. */
  function SignedStep(v: int, base: nat, c: nat): (int, bool) {
    var x := v % 256 * base + c;
    var w := (v / 256 * base + x / 256) % LONG_LONG;
    (AsSigned(w * 256 + x % 256, LONG_LONG), w > (LONG_LONG - 1) / 256)
  }

  /** The signed arithmetic of the step stays in the signed word. */
  predicate NoOverflow(v: int, base: nat, c: nat) {
    -(LONG_LONG / 2) <= v / 256 * base && v / 256 * base + (v % 256 * base + c) / 256 < LONG_LONG / 2
  }

  lemma LowByteCarry(lo: nat, base: nat, c: nat)
    requires lo < 256 && 2 <= base <= 36 && c < base
    ensures 0 <= (lo * base + c) / 256 < base
  {
  }

  lemma ScaledNat(a: nat, base: nat)
    requires 2 <= base <= 36
    ensures 2 * a <= a * base <= 36 * a && (a > 0 ==> base <= a * base)
  {
    assert a * base == 2 * a + a * (base - 2) && a * (base - 2) >= 0;
    assert a * base == 36 * a - a * (36 - base) && a * (36 - base) >= 0;
    if a > 0 { assert a * base == base + (a - 1) * base && (a - 1) * base >= 0; }
  }

  lemma Scaled(a: int, base: nat, least: int, most: int)
    requires 2 <= base <= 36 && least <= a <= most && least <= 0
    ensures 36 * least <= a * base
    ensures most < 0 ==> a * base + base <= 0
    ensures most >= 0 ==> a * base <= 36 * most
    ensures a >= 0 ==> a * base >= 2 * a
  {
    if a >= 0 {
      ScaledNat(a, base);
    } else {
      var b := -a;
      ScaledNat(b, base);
      assert a * base == -(b * base);
    }
  }

  /** A negative accumulator stands for a word with its top bit set: the shifted part is short by a constant. */
  lemma NegativeHalves(u: nat)
    requires LONG_LONG / 2 <= u < LONG_LONG
    ensures AsSigned(u, LONG_LONG) == u - LONG_LONG
    ensures (u - LONG_LONG) % 256 == u % 256 && (u - LONG_LONG) / 256 == u / 256 - LONG_LONG / 256
    ensures LONG_LONG / 512 <= u / 256 < LONG_LONG / 256
  {
  }

  /** The sums of the two steps differ by a multiple of the word. */
  lemma SameWord(w: nat, w': nat, lo: nat, base: nat)
    requires base >= 1 && w' == w + LONG_LONG - LONG_LONG / 256 * base
    ensures (w' * 256 + lo) % LONG_LONG == (w * 256 + lo) % LONG_LONG
  {
  }

  /** The two sums: w for the unsigned accumulator, s, which is negative, for the signed one. */
  lemma NegativeSum(h: nat, carry: nat, base: nat, w: int, s: int)
    requires LONG_LONG / 512 <= h < LONG_LONG / 256 && 2 <= base <= 36 && carry < base
    requires w == h * base + carry && s == (h - LONG_LONG / 256) * base + carry
    ensures w >= LONG_LONG / 256 && -(LONG_LONG / 8) <= s < 0 && s == w - LONG_LONG / 256 * base
  {
    Scaled(h - LONG_LONG / 256, base, -(LONG_LONG / 512), -1);
    Scaled(h, base, 0, LONG_LONG / 256);
  }

  lemma SignedStepIs(v: int, base: nat, c: nat, x: nat, s: int)
    requires x == v % 256 * base + c && s == v / 256 * base + x / 256 && -(LONG_LONG / 8) <= s < 0
    ensures SignedStep(v, base, c) == (AsSigned((s + LONG_LONG) * 256 + x % 256, LONG_LONG), true)
  {
    assert s % LONG_LONG == s + LONG_LONG;
  }

  lemma SameSigned(a: int, b: int)
    requires a % LONG_LONG == b % LONG_LONG
    ensures AsSigned(a, LONG_LONG) == AsSigned(b % LONG_LONG, LONG_LONG)
  {
  }

  lemma StepOfNegative(u: nat, base: nat, c: nat)
    requires LONG_LONG / 2 <= u < LONG_LONG && 2 <= base <= 36 && c < base
    ensures SignedStep(u - LONG_LONG, base, c)
        == (AsSigned(Step(u, base, c, LONG_LONG).0, LONG_LONG), Step(u, base, c, LONG_LONG).1)
  {
    hide AsSigned, SignedStep;
    assert (u - LONG_LONG) % 256 == u % 256 && (u - LONG_LONG) / 256 == u / 256 - LONG_LONG / 256
           && LONG_LONG / 512 <= u / 256 < LONG_LONG / 256 by { NegativeHalves(u); }
    var h, lo := u / 256, u % 256;
    var x := lo * base + c;
    var carry, low := x / 256, x % 256;
    assert 0 <= carry < base by { LowByteCarry(lo, base, c); }
    var w, s := h * base + carry, (h - LONG_LONG / 256) * base + carry;
    NegativeSum(h, carry, base, w, s);
    SignedStepIs(u - LONG_LONG, base, c, x, s);
    SameWord(w, s + LONG_LONG, low, base);
    SameSigned((s + LONG_LONG) * 256 + low, w * 256 + low);
    assert Step(u, base, c, LONG_LONG) == ((w * 256 + low) % LONG_LONG, true);
  }

  lemma StepOfNonNegative(u: nat, base: nat, c: nat)
    requires u < LONG_LONG / 2 && 2 <= base <= 36 && c < base
    ensures SignedStep(u, base, c)
        == (AsSigned(Step(u, base, c, LONG_LONG).0, LONG_LONG), Step(u, base, c, LONG_LONG).1)
  {
    hide AsSigned;
    var x := u % 256 * base + c;
    var w := u / 256 * base + x / 256;
    assert 0 <= x / 256 < base by { LowByteCarry(u % 256, base, c); }
    assert 0 <= w < LONG_LONG by { Scaled(u / 256, base, 0, LONG_LONG / 512); }
    InWord(w, LONG_LONG);
    SameSigned(w * 256 + x % 256, w * 256 + x % 256);
  }

  /** On every word, the signed accumulator takes the same step as an unsigned one would. */
  lemma SignedStepAgrees(u: nat, base: nat, c: nat)
    requires u < LONG_LONG && 2 <= base <= 36 && c < base
    ensures SignedStep(AsSigned(u, LONG_LONG), base, c)
        == (AsSigned(Step(u, base, c, LONG_LONG).0, LONG_LONG), Step(u, base, c, LONG_LONG).1)
  {
    hide SignedStep, Step;
    if u < LONG_LONG / 2 {
      StepOfNonNegative(u, base, c);
    } else {
      StepOfNegative(u, base, c);
    }
  }

  /** The signed products and sums of the step are exact: nothing overflows, whatever the accumulator holds. */
  lemma SignedStepFits(v: int, base: nat, c: nat)
    requires -(LONG_LONG / 2) <= v < LONG_LONG / 2 && 2 <= base <= 36 && c < base
    ensures NoOverflow(v, base, c)
  {
    LowByteCarry(v % 256, base, c);
    Scaled(v / 256, base, -(LONG_LONG / 512), LONG_LONG / 512);
  }

  /** The digits in a signed word; u is what an unsigned one would hold. */
  method SignedDigits(s: CString, from: nat, base: nat) returns (v: int, overflow: bool, nptr: nat, ghost u: nat)
    requires from < |s| && 2 <= base <= 36
    ensures nptr == DigitsEnd(s, from, base) && Accumulated(u, overflow, Value(s, from, nptr, base), LONG_LONG)
    ensures u < LONG_LONG && v == AsSigned(u, LONG_LONG)
  {
    hide Accumulated, Step, SignedStep, AsSigned;
    v, overflow, nptr, u := 0, false, from, 0;
    AccumulatedSum(false, 0, LONG_LONG, 0, 0, false);
    SignedZero();
    while s[nptr] != 0
      invariant from <= nptr < |s| && DigitsEnd(s, nptr, base) == DigitsEnd(s, from, base)
      invariant u < LONG_LONG && Accumulated(u, overflow, Value(s, from, nptr, base), LONG_LONG)
      invariant v == AsSigned(u, LONG_LONG)
      decreases |s| - nptr
    {
      CDigitIsDigit(s[nptr], base);
      var c := CDigit(s[nptr]);
      if c >= base {
        break;
      }
      AccumulatedStep(u, overflow, Value(s, from, nptr, base), LONG_LONG, base, c, Value(s, from, nptr + 1, base));
      SignedStepAgrees(u, base, c);
      var (v', over) := SignedStep(v, base, c);
      u := Step(u, base, c, LONG_LONG).0;
      v, overflow := v', overflow || over;
      nptr := nptr + 1;
    }
  }

  lemma SignedZero()
    ensures AsSigned(0, LONG_LONG) == 0
  {
  }

  lemma NegatedWord(u: nat)
    requires u < LONG_LONG
    ensures AsSigned(u, LONG_LONG) % LONG_LONG == u && -AsSigned(u, LONG_LONG) % LONG_LONG == -(u as int) % LONG_LONG
  {
  }

  method Strtoull(s: CString, ptr: nat, endptr: Place?, base0: int32, errno: Errno) returns (r: nat)
    requires ptr < |s|
    modifies errno, endptr
    ensures var n := Parse(s, ptr, base0);
      && r == UnsignedResult(n, LONG_LONG)
      && errno.code == UnsignedErrno(n, LONG_LONG, old(errno.code))
      && (endptr != null ==> endptr.at == EndAfter(n, ptr, old(endptr.at)))
  {
    hide Unsigned, Accumulated, DigitsStart, BaseAt, DigitsEnd, SkipSpaces, AsSigned;
    var bad, neg, orig, nptr, base := Front(s, ptr, base0);
    if bad {
      errno.code := EINVAL;
      return 0;
    }
    hide Parse;
    UnsignedByDigits(s, orig, base0, neg);
    ghost var from, u := nptr, 0;
    var v, overflow;
    v, overflow, nptr, u := SignedDigits(s, nptr, base);
    ResultOfWord(u, overflow, Value(s, from, nptr, base), LONG_LONG, neg, nptr);
    NegatedWord(u);
    if nptr == orig {
      nptr := ptr;
      errno.code := EINVAL;
      v := 0;
    }
    if endptr != null {
      endptr.at := nptr;
    }
    if overflow {
      errno.code := ERANGE;
      return LONG_LONG - 1;
    }
    return if neg then -v % LONG_LONG else v % LONG_LONG;
  }

  // ---------------------------------------------------------------- signed parsing

  /**
   * Where the signed functions start the unsigned ones, having dealt with spaces, and with a minus before a
   * letter or digit.
   */
  function SignedStart(s: CString, p: nat): (q: nat)
    requires p < |s|
    ensures q < |s|
  {
    var q := SkipSpaces(s, p);
    if s[q] == 45 && IsAlnum(s[q + 1]) then q + 1 else q
  }

  function WithoutSign(n: Numeral): Numeral {
    if n.Number? then n.(neg := false) else n
  }

  lemma SignedHere(s: CString, q: nat, base: int)
    requires q + 1 < |s| && GoodBase(base) && s[q] == 45
    ensures IsAlnum(s[q + 1]) ==> Signed(s, q + 1, base) == WithoutSign(Signed(s, q, base))
    ensures !IsAlnum(s[q + 1]) ==> Signed(s, q, base) == NoDigits
  {
  }

  /**
   * What is parsed there is the same numeral without its sign; and if the minus was left there, there is no
   * numeral.
   */
  lemma ParsedFromStart(s: CString, p: nat, base: int32)
    requires p < |s|
    ensures var q, n := SkipSpaces(s, p), Parse(s, p, base);
      && Parse(s, SignedStart(s, p), base) == WithoutSign(n)
      && (n.Number? ==> (n.neg <==> SignedStart(s, p) == q + 1))
  {
    var q := SkipSpaces(s, p);
    assert SkipSpaces(s, q) == q;
    hide Signed, DigitOf;
    if GoodBase(base) && s[q] == 45 {
      SignedHere(s, q, base);
      if IsAlnum(s[q + 1]) {
        assert SkipSpaces(s, q + 1) == q + 1;
      }
    }
  }

  /** The value nearest to x in a signed word. */
  function Clamped(x: int, word: nat): int {
    if x < -(word / 2) then -(word / 2) else if x >= word / 2 then word / 2 - 1 else x
  }

  /** errno is also cleared by a value that is exactly the minimum. */
  function SignedErrno(n: Numeral, word: nat, was: int): int {
    if !n.Number? then EINVAL
    else if Exact(n) != Clamped(Exact(n), word) then ERANGE
    else if Exact(n) == -(word / 2) then 0 else was
  }

  lemma UnsignedOfMagnitude(n: Numeral, word: nat)
    requires word == LONG || word == LONG_LONG
    ensures UnsignedResult(WithoutSign(n), word)
         == if !n.Number? then 0 else if n.magnitude >= word then word - 1 else n.magnitude
  {
    if n.Number? && n.magnitude < word { InWord(n.magnitude, word); }
  }

  /** How the signed functions finish, from the unsigned result v. */
  lemma SignedResult(n: Numeral, v: nat, neg: bool, word: nat)
    requires word == LONG || word == LONG_LONG
    requires n.Number? ==> n.neg == neg
    requires v == UnsignedResult(WithoutSign(n), word)
    ensures v < word / 2 ==>
      (if neg then -(v as int) else v) == Exact(n) == Clamped(Exact(n), word) && Exact(n) != -(word / 2)
    ensures v < word / 2 && n.Number? ==> n.magnitude < word
    ensures v == word / 2 && neg ==> n.Number? && Exact(n) == Clamped(Exact(n), word) == -(word / 2)
    ensures v >= word / 2 && !(v == word / 2 && neg)
        ==> n.Number? && Exact(n) != Clamped(Exact(n), word) == if neg then -(word / 2) else word / 2 - 1
  {
    UnsignedOfMagnitude(n, word);
    hide UnsignedResult, WithoutSign;
  }

  /** The value of the numeral, clamped to the type; a pointer to where it ends, or to the start if there is none. */
  method Strtol(s: CString, ptr: nat, endptr: Place?, base: int32, errno: Errno) returns (r: int)
    requires ptr < |s|
    modifies errno, endptr
    ensures var n := Parse(s, ptr, base);
      && r == Clamped(Exact(n), LONG)
      && errno.code == SignedErrno(n, LONG, old(errno.code))
      && (endptr != null && !n.BadBase? ==> endptr.at == EndAfter(n, ptr, ptr))
      && (endptr != null && n.BadBase?
        ==> endptr.at == if old(endptr.at) == SignedStart(s, ptr) then ptr else old(endptr.at))
  {
    hide Parse, SkipSpaces, UnsignedResult, Clamped, Exact;
    ghost var n := Parse(s, ptr, base);
    var neg := false;
    var nptr := Spaces(s, ptr);
    if s[nptr] == 45 && IsAlnum(s[nptr + 1]) {
      neg, nptr := true, nptr + 1;
    }
    ParsedFromStart(s, ptr, base);
    var v := Strtoul(s, nptr, endptr, base, errno);
    if endptr != null && endptr.at == nptr {
      endptr.at := ptr;
    }
    SignedResult(n, v, neg, LONG);
    if v >= LONG / 2 {
      if v == LONG / 2 && neg {
        errno.code := 0;
        return -(LONG / 2);
      }
      errno.code := ERANGE;
      return if neg then -(LONG / 2) else LONG / 2 - 1;
    }
    return if neg then -(v as int) else v;
  }

  method Strtoll(s: CString, ptr: nat, endptr: Place?, base: int32, errno: Errno) returns (r: int)
    requires ptr < |s|
    modifies errno, endptr
    ensures var n := Parse(s, ptr, base);
      && r == Clamped(Exact(n), LONG_LONG)
      && errno.code == SignedErrno(n, LONG_LONG, old(errno.code))
      && (endptr != null && !n.BadBase? ==> endptr.at == EndAfter(n, ptr, ptr))
      && (endptr != null && n.BadBase?
        ==> endptr.at == if old(endptr.at) == SignedStart(s, ptr) then ptr else old(endptr.at))
  {
    hide Parse, SkipSpaces, UnsignedResult, Clamped, Exact;
    ghost var n := Parse(s, ptr, base);
    var neg := false;
    var nptr := Spaces(s, ptr);
    if s[nptr] == 45 && IsAlnum(s[nptr + 1]) {
      neg, nptr := true, nptr + 1;
    }
    ParsedFromStart(s, ptr, base);
    var v := Strtoull(s, nptr, endptr, base, errno);
    if endptr != null && endptr.at == nptr {
      endptr.at := ptr;
    }
    SignedResult(n, v, neg, LONG_LONG);
    if v > LONG_LONG / 2 - 1 {
      if v == LONG_LONG / 2 && neg {
        errno.code := 0;
        return -(LONG_LONG / 2);
      }
      errno.code := ERANGE;
      return if neg then -(LONG_LONG / 2) else LONG_LONG / 2 - 1;
    }
    return if neg then -(v as int) else v;
  }
}
