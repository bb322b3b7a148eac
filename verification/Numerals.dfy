/**
 * The numerals of section 7.22.1.4 of ISO C11 in their characters: what is parsed from a string whose spaces, sign,
 * prefix and digits are given.
 */
module Numerals {
  import opened Words
  import opened Strtol

  predicate Is(c: byte, ch: char) { c == ch as int }

  predicate Blank(c: byte) {
    Is(c, ' ') || Is(c, '\t') || Is(c, '\n') || c == 11 || c == 12 || Is(c, '\r')
  }

  /** The character stands for the digit d: '0' to '9', then letters of either case. */
  predicate Writes(c: byte, d: nat) {
    if d < 10 then c == '0' as int + d else d < 36 && (c == 'a' as int + d - 10 || c == 'A' as int + d - 10)
  }

  ghost predicate WritesDigit(c: byte, base: nat) { exists d: nat :: d < base && Writes(c, d) }

  /** The characters from d on write these digits, all below the base, and the next one writes none. */
  ghost predicate Written(s: CString, d: nat, ds: seq<nat>, base: nat) {
    && d + |ds| < |s|
    && (forall k :: 0 <= k < |ds| ==> ds[k] < base && Writes(s[d + k], ds[k]))
    && !WritesDigit(s[d + |ds|], base)
  }

  function NumberOf(ds: seq<nat>, base: nat): nat {
    if ds == [] then 0 else NumberOf(ds[..|ds| - 1], base) * base + ds[|ds| - 1]
  }

  lemma DigitWritten(c: byte, d: nat)
    ensures Writes(c, d) <==> d < 36 && DigitOf(c) == d
  {
  }

  lemma IsDigitOf(c: byte, base: nat)
    requires base <= 36
    ensures WritesDigit(c, base) <==> DigitOf(c) < base
  {
    hide Writes, DigitOf;
    DigitWritten(c, DigitOf(c));
    if WritesDigit(c, base) {
      var d: nat :| d < base && Writes(c, d);
      DigitWritten(c, d);
    }
  }

  lemma AsDigits(s: CString, d: nat, ds: seq<nat>, base: nat)
    requires Written(s, d, ds, base) && base <= 36
    ensures d + |ds| < |s| && DigitOf(s[d + |ds|]) >= base
    ensures forall k :: 0 <= k < |ds| ==> DigitOf(s[d + k]) == ds[k] < base
  {
    hide Writes, DigitOf, WritesDigit;
    forall k | 0 <= k < |ds| ensures DigitOf(s[d + k]) == ds[k] { DigitWritten(s[d + k], ds[k]); }
    IsDigitOf(s[d + |ds|], base);
  }

  lemma {:induction false} DigitsRead(s: CString, d: nat, n: nat, base: nat)
    requires d + n < |s| && DigitOf(s[d + n]) >= base && base <= 36
    requires forall k :: d <= k < d + n ==> DigitOf(s[k]) < base
    ensures DigitsEnd(s, d, base) == d + n
    decreases n
  {
    hide DigitOf;
    if n > 0 { DigitsRead(s, d + 1, n - 1, base); }
  }

  lemma {:induction false} ValueRead(s: CString, d: nat, ds: seq<nat>, base: nat)
    requires d + |ds| < |s| && forall k :: 0 <= k < |ds| ==> DigitOf(s[d + k]) == ds[k]
    ensures Value(s, d, d + |ds|, base) == NumberOf(ds, base)
    decreases |ds|
  {
    hide DigitOf;
    if ds != [] {
      var last := |ds| - 1;
      ValueRead(s, d, ds[..last], base);
      assert DigitOf(s[d + last]) == ds[last];
    }
  }

  lemma {:induction false} BlanksRead(s: CString, p: nat, q: nat)
    requires p <= q < |s| && (forall k :: p <= k < q ==> Blank(s[k])) && !Blank(s[q])
    ensures SkipSpaces(s, p) == q
    decreases q - p
  {
    if p < q { BlanksRead(s, p + 1, q); }
  }

  /** "0x" or "0X" and a hexadecimal digit. */
  ghost predicate Prefixed(s: CString, u: nat) {
    u + 2 < |s| && Is(s[u], '0') && (Is(s[u + 1], 'x') || Is(s[u + 1], 'X')) && WritesDigit(s[u + 2], 16)
  }

  lemma PrefixRead(s: CString, u: nat)
    requires u < |s|
    ensures HexPrefix(s, u) <==> Prefixed(s, u)
  {
    if u + 2 < |s| { HexDigitRead(s[u + 2]); }
  }

  lemma HexDigitRead(c: byte)
    ensures IsHexDigit(c) <==> WritesDigit(c, 16)
  {
    IsDigitOf(c, 16);
  }

  /** Spaces up to q, and a sign or none before u. */
  predicate Before(s: CString, p: nat, q: nat, u: nat) {
    && p <= q <= u < |s| && (forall k :: p <= k < q ==> Blank(s[k])) && !Blank(s[q])
    && if Is(s[q], '-') || Is(s[q], '+') then u == q + 1 else u == q
  }

  /**
   * The numeral parsed from spaces, an optional sign, an optional prefix where the base is 0 or 16, and digits of
   * the base, which 0 leaves to the prefix: 16 behind "0x", 8 behind "0", 10 otherwise.
   */
  lemma NumeralRead(s: CString, p: nat, q: nat, u: nat, ds: seq<nat>, base: int)
    requires Before(s, p, q, u) && (base == 0 || 2 <= base <= 36)
    ensures var hex := Prefixed(s, u) && (base == 0 || base == 16);
      var b := if base != 0 then base else if hex then 16 else if Is(s[u], '0') then 8 else 10;
      var d := if hex then u + 2 else u;
      Written(s, d, ds, b) ==>
        Parse(s, p, base) == if ds == [] then NoDigits else Number(Is(s[q], '-'), NumberOf(ds, b), d + |ds|)
  {
    SignRead(s, p, q, u, base);
    PrefixIs(s, u, base);
    hide Written, NumberOf, DigitsEnd, Value, Prefixed, BaseAt, DigitsStart, Before, Parse;
    var b, d := BaseAt(s, u, base), DigitsStart(s, u, base);
    if Written(s, d, ds, b) {
      UnsignedWritten(s, u, d, ds, base, b, Is(s[q], '-'));
      if d > u { FirstDigit(s, u, ds); }
    }
  }

  lemma SignRead(s: CString, p: nat, q: nat, u: nat, base: int)
    requires Before(s, p, q, u) && (base == 0 || 2 <= base <= 36)
    ensures Parse(s, p, base) == Unsigned(s, u, base, Is(s[q], '-'))
  {
    BlanksRead(s, p, q);
    hide SkipSpaces, Blank, Unsigned;
  }

  lemma PrefixIs(s: CString, u: nat, base: int)
    requires u < |s| && (base == 0 || 2 <= base <= 36)
    ensures var hex := Prefixed(s, u) && (base == 0 || base == 16);
      && BaseAt(s, u, base) == (if base != 0 then base else if hex then 16 else if Is(s[u], '0') then 8 else 10)
      && DigitsStart(s, u, base) == (if hex then u + 2 else u)
      && (Prefixed(s, u) ==> Is(s[u], '0'))
  {
    PrefixRead(s, u);
    hide HexPrefix;
  }

  lemma UnsignedWritten(s: CString, u: nat, d: nat, ds: seq<nat>, base: int, b: nat, neg: bool)
    requires u < |s| && GoodBase(base) && b == BaseAt(s, u, base) && d == DigitsStart(s, u, base)
    requires Written(s, d, ds, b)
    ensures d + |ds| < |s|
    ensures Unsigned(s, u, base, neg) == if d + |ds| == u then NoDigits else Number(neg, NumberOf(ds, b), d + |ds|)
  {
    hide Written, NumberOf, BaseAt, DigitsStart;
    DigitsAsWritten(s, d, ds, b);
  }

  lemma DigitsAsWritten(s: CString, d: nat, ds: seq<nat>, base: nat)
    requires Written(s, d, ds, base) && base <= 36
    ensures d + |ds| < |s| && DigitsEnd(s, d, base) == d + |ds| && Value(s, d, d + |ds|, base) == NumberOf(ds, base)
  {
    AsDigits(s, d, ds, base);
    hide Written, DigitOf;
    forall k | d <= k < d + |ds| ensures DigitOf(s[k]) < base {
      var j := k - d;
      assert DigitOf(s[d + j]) == ds[j] < base;
    }
    DigitsRead(s, d, |ds|, base);
    ValueRead(s, d, ds, base);
  }

  /** Behind the prefix stands at least one digit. */
  lemma FirstDigit(s: CString, u: nat, ds: seq<nat>)
    requires Prefixed(s, u) && Written(s, u + 2, ds, 16)
    ensures ds != []
  {
  }

  /** A base other than 0 and 2 to 36 parses nothing. */
  lemma OtherBases(s: CString, p: nat, base: int)
    requires p < |s|
    ensures Parse(s, p, base) == BadBase <==> !(base == 0 || 2 <= base <= 36)
  {
  }

  /** The numbers behind the four functions: 32 and 64 bits, EINVAL 22, ERANGE 34. */
  lemma UnsignedNumbers(neg: bool, m: nat, end: nat, was: int)
    ensures var (n, r, e) := (Number(neg, m, end), 0x1_0000_0000, 0x1_0000_0000_0000_0000);
      && UnsignedResult(n, LONG) == (if m >= r then r - 1 else if neg && m > 0 then r - m else m)
      && UnsignedResult(n, LONG_LONG) == (if m >= e then e - 1 else if neg && m > 0 then e - m else m)
      && UnsignedErrno(n, LONG, was) == (if m >= r then 34 else was)
      && UnsignedErrno(n, LONG_LONG, was) == (if m >= e then 34 else was)
    ensures UnsignedResult(NoDigits, LONG) == UnsignedResult(NoDigits, LONG_LONG) == 0
    ensures UnsignedErrno(NoDigits, LONG, was) == UnsignedErrno(NoDigits, LONG_LONG, was) == 22
    ensures UnsignedErrno(BadBase, LONG, was) == UnsignedErrno(BadBase, LONG_LONG, was) == 22
  {
    if 0 < m < 0x1_0000_0000 { assert -(m as int) % 0x1_0000_0000 == 0x1_0000_0000 - m; }
    if 0 < m < 0x1_0000_0000_0000_0000 {
      assert -(m as int) % 0x1_0000_0000_0000_0000 == 0x1_0000_0000_0000_0000 - m;
    }
  }

  lemma SignedNumbers(neg: bool, m: nat, end: nat, was: int)
    ensures var (n, x) := (Number(neg, m, end), if neg then -(m as int) else m);
      && Clamped(Exact(n), LONG)
         == (if x < -0x8000_0000 then -0x8000_0000 else if x > 0x7FFF_FFFF then 0x7FFF_FFFF else x)
      && SignedErrno(n, LONG, was)
         == (if x < -0x8000_0000 || x > 0x7FFF_FFFF then 34 else if x == -0x8000_0000 then 0 else was)
      && Clamped(Exact(n), LONG_LONG)
         == (if x < -0x8000_0000_0000_0000 then -0x8000_0000_0000_0000
             else if x > 0x7FFF_FFFF_FFFF_FFFF then 0x7FFF_FFFF_FFFF_FFFF else x)
      && SignedErrno(n, LONG_LONG, was)
         == (if x < -0x8000_0000_0000_0000 || x > 0x7FFF_FFFF_FFFF_FFFF then 34
             else if x == -0x8000_0000_0000_0000 then 0 else was)
    ensures SignedErrno(NoDigits, LONG, was) == SignedErrno(NoDigits, LONG_LONG, was) == 22
  {
  }
}
