/**
 * Integer to floating-point conversions that must round once. A float is modelled by the integer it is, which
 * is enough here: all inputs are integers of at most 64 bits, and scaling by a power of two is exact.
 */
module Rounding {
  import opened Prelude
  import opened Words
  import opened Division

  // ---------------------------------------------------------------- rounding to nearest, ties to even

  /** The exponent of the last place when x is written with p bits. */
  function Exponent(x: nat, p: nat): (e: nat)
    ensures x < Pow2(p + e) && (e > 0 ==> Pow2(p + e - 1) <= x)
  {
    if x < Pow2(p) then 0 else 1 + Exponent(x / 2, p)
  }

  /** How many units x is nearest to, the even count if it is halfway. */
  function Nearest(x: nat, unit: nat): nat
    requires unit > 0
  {
    var q, r := x / unit, x % unit;
    if 2 * r < unit || (2 * r == unit && q % 2 == 0) then q else q + 1
  }

  function RoundAt(x: nat, unit: nat): nat
    requires unit > 0
  {
    Nearest(x, unit) * unit
  }

  function RoundNat(x: nat, p: nat): nat {
    RoundAt(x, Pow2(Exponent(x, p)))
  }

  function Round(x: int, p: nat): int {
    if x >= 0 then RoundNat(x, p) else -(RoundNat(-x, p) as int)
  }

  function Distance(a: int, b: int): nat { if a < b then b - a else a - b }

  predicate Times(a: nat, b: nat, c: nat) { a == b * c }

  lemma PowerSplit(n: nat, a: nat, b: nat)
    requires n == a + b
    ensures Times(Pow2(n), Pow2(a), Pow2(b))
  {
  }

  /** Nearest among the multiples of the unit, and even when another is as near. */
  lemma RoundAtNearest(x: nat, unit: nat, k: nat)
    requires unit > 0
    ensures Distance(RoundAt(x, unit), x) <= Distance(k * unit, x)
    ensures Distance(RoundAt(x, unit), x) == Distance(k * unit, x) && k != Nearest(x, unit)
        ==> Nearest(x, unit) % 2 == 0
  {
    var q, r := x / unit, x % unit;
    var a, b, n := q * unit, k * unit, Nearest(x, unit);
    assert x == a + r;
    Multiples(q, k, unit);
    Multiples(q, n, unit);
    var c := n * unit;
    assert c == if n == q then a else a + unit;
    assert RoundAt(x, unit) == c;
  }

  predicate Holds(v: nat, p: nat, k: nat, j: nat) { k < Pow2(p) && v == k * Pow2(j) }

  /** A number that p bits and an exponent can hold. */
  ghost predicate Representable(v: nat, p: nat) { exists k: nat, j: nat :: Holds(v, p, k, j) }

  /** A representable number below x with a smaller last place is no nearer than the bottom of x's binade. */
  lemma FinerIsBelow(x: nat, p: nat, k: nat, j: nat)
    requires p > 0 && k < Pow2(p) && j < Exponent(x, p)
    ensures k * Pow2(j) <= Pow2(p - 1) * Pow2(Exponent(x, p)) <= x
  {
    var e := Exponent(x, p);
    hide Pow2, Exponent;
    PowerSplit(p + e - 1, p - 1, e);
    PowerSplit(p + j, p, j);
    Pow2Monotone(p + j, p + e - 1);
    Multiples(Pow2(p), k, Pow2(j));
  }

  /** No representable number is nearer, and when another is as near the one given has an even significand. */
  lemma RoundIsNearest(x: nat, p: nat, v: nat)
    requires p > 0 && Representable(v, p)
    ensures Distance(RoundNat(x, p), x) <= Distance(v, x)
    ensures v != RoundNat(x, p) && Distance(RoundNat(x, p), x) == Distance(v, x)
        ==> Nearest(x, Pow2(Exponent(x, p))) % 2 == 0
  {
    var k: nat, j: nat :| Holds(v, p, k, j);
    var e := Exponent(x, p);
    if j >= e {
      Pow2Add(j - e, e);
      var m := k * Pow2(j - e);
      assert v == m * Pow2(e) by { Associate(k, Pow2(j - e), Pow2(e)); }
      RoundAtNearest(x, Pow2(e), m);
    } else {
      FinerIsBelow(x, p, k, j);
      RoundAtNearest(x, Pow2(e), Pow2(p - 1));
      hide Nearest;
    }
  }

  lemma Associate(a: nat, b: nat, c: nat)
    ensures a * (b * c) == (a * b) * c
  {
  }

  lemma RoundIsRepresentable(x: nat, p: nat)
    requires p > 0
    ensures Representable(RoundNat(x, p), p)
  {
    var e := Exponent(x, p);
    var n := Nearest(x, Pow2(e));
    Pow2Add(p, e);
    QuotientBelow(x, Pow2(p), Pow2(e));
    if n == Pow2(p) {
      assert Holds(RoundNat(x, p), p, 1, p + e);
    } else {
      assert Holds(RoundNat(x, p), p, n, e);
    }
  }

  lemma QuotientBelow(x: nat, m: nat, unit: nat)
    requires unit > 0 && x < m * unit
    ensures x / unit < m
  {
  }

  // ---------------------------------------------------------------- rounding, for every integer

  function Magnitude(x: int): nat { if x < 0 then -x else x }

  /** An integer that p bits, an exponent and a sign can hold. */
  ghost predicate Float(v: int, p: nat) { Representable(Magnitude(v), p) }

  /**
   * r is x rounded to p bits, to nearest with ties to even: nothing else that p bits hold is nearer, and if
   * something is as near, the last of r's p bits is 0, so that one bit less holds r too.
   */
  ghost predicate Rounded(r: int, x: int, p: nat)
    requires p > 0
  {
    && Float(r, p)
    && forall v: int :: Float(v, p) && v != r ==>
      Distance(r, x) < Distance(v, x) || (Distance(r, x) == Distance(v, x) && Float(r, p - 1))
  }

  lemma EvenHasFewerBits(x: nat, p: nat)
    requires p > 1 && Nearest(x, Pow2(Exponent(x, p))) % 2 == 0
    ensures Representable(RoundNat(x, p), p - 1)
  {
    var e := Exponent(x, p);
    var n := Nearest(x, Pow2(e));
    NearestBelow(x, p);
    Halved(n, e);
    hide Exponent, Nearest;
    if n == Pow2(p) {
      Pow2Add(p, e);
      HoldsAt(RoundNat(x, p), p - 1, 1, p + e);
    } else {
      assert n / 2 < Pow2(p - 1);
      HoldsAt(RoundNat(x, p), p - 1, n / 2, e + 1);
    }
  }

  lemma NearestBelow(x: nat, p: nat)
    ensures Nearest(x, Pow2(Exponent(x, p))) <= Pow2(p)
  {
    var e := Exponent(x, p);
    Pow2Add(p, e);
    QuotientBelow(x, Pow2(p), Pow2(e));
  }

  lemma Halved(n: nat, e: nat)
    requires n % 2 == 0
    ensures n * Pow2(e) == (n / 2) * Pow2(e + 1)
  {
    Associate(n / 2, 2, Pow2(e));
  }

  lemma HoldsAt(v: nat, p: nat, k: nat, j: nat)
    requires Holds(v, p, k, j)
    ensures Representable(v, p)
  {
  }

  lemma ZeroIsFloat(p: nat)
    ensures Representable(0, p)
  {
    assert Holds(0, p, 0, 0);
  }

  lemma RoundNatAgainst(x: nat, p: nat, v: int)
    requires p > 1 && Float(v, p) && v != RoundNat(x, p)
    ensures var r := RoundNat(x, p);
      Distance(r, x) < Distance(v, x) || (Distance(r, x) == Distance(v, x) && Representable(r, p - 1))
  {
    hide Representable, RoundNat, Nearest, Pow2;
    if v < 0 {
      ZeroIsFloat(p);
      RoundIsNearest(x, p, 0);
    } else {
      RoundIsNearest(x, p, v);
      if Distance(RoundNat(x, p), x) == Distance(v, x) { EvenHasFewerBits(x, p); }
    }
  }

  lemma RoundNatIsRounded(x: nat, p: nat)
    requires p > 1
    ensures Rounded(RoundNat(x, p), x, p)
  {
    hide Representable, RoundNat;
    RoundIsRepresentable(x, p);
    forall v: int | Float(v, p) && v != RoundNat(x, p)
      ensures Distance(RoundNat(x, p), x) < Distance(v, x)
        || (Distance(RoundNat(x, p), x) == Distance(v, x) && Float(RoundNat(x, p), p - 1))
    {
      RoundNatAgainst(x, p, v);
    }
  }

  lemma Mirrored(r: int, x: int, p: nat)
    requires p > 0 && Rounded(r, x, p)
    ensures Rounded(-r, -x, p)
  {
    hide Representable;
    forall v: int | Float(v, p) && v != -r
      ensures Distance(-r, -x) < Distance(v, -x) || (Distance(-r, -x) == Distance(v, -x) && Float(-r, p - 1))
    {
      assert Float(-v, p) && -v != r;
    }
  }

  lemma RoundOfZero(p: nat)
    ensures RoundNat(0, p) == 0
  {
  }

  /** Every integer, below zero as above, is rounded to nearest with ties to even. */
  lemma RoundIsRounded(x: int, p: nat)
    requires p > 1
    ensures Rounded(Round(x, p), x, p) && Round(-x, p) == -Round(x, p)
  {
    hide Rounded, RoundNat;
    RoundNatIsRounded(if x < 0 then -x else x, p);
    if x < 0 { Mirrored(RoundNat(-x, p), -x, p); }
    if x == 0 { RoundOfZero(p); }
  }

  lemma AtUnit(v: nat, p: nat, k: nat, j: nat, m: nat) returns (n: nat)
    requires Holds(v, p, k, j) && m <= j
    ensures v == n * Pow2(m) && (m == j ==> n == k)
  {
    Pow2Add(j - m, m);
    n := k * Pow2(j - m);
    Associate(k, Pow2(j - m), Pow2(m));
  }

  lemma BetweenUnits(p: nat, c: nat, d: nat, m: nat) returns (v: nat)
    requires p > 1 && c * Pow2(m) + 1 < d * Pow2(m) && (c < Pow2(p - 1) || d < Pow2(p - 1))
    ensures c * Pow2(m) < v < d * Pow2(m) && Representable(v, p)
  {
    assert Pow2(p) == 2 * Pow2(p - 1);
    hide Representable;
    Multiples(d, c, Pow2(m));
    if c + 1 < d { v := FarUnits(p, c, d, m); } else { v := NextUnits(p, c, m); }
  }

  lemma FarUnits(p: nat, c: nat, d: nat, m: nat) returns (v: nat)
    requires p > 1 && c + 1 < d && (c + 1 < Pow2(p) || d - 1 < Pow2(p))
    ensures c * Pow2(m) < v < d * Pow2(m) && Representable(v, p)
  {
    hide Pow2, Representable;
    var n := if c + 1 < Pow2(p) then c + 1 else d - 1;
    v := n * Pow2(m);
    MoreMultiples(c, n - c, Pow2(m));
    MoreMultiples(n, d - n, Pow2(m));
    HoldsAt(v, p, n, m);
  }

  lemma NextUnits(p: nat, c: nat, m: nat) returns (v: nat)
    requires p > 1 && 2 * c + 1 < Pow2(p) && m > 0
    ensures c * Pow2(m) < v < (c + 1) * Pow2(m) && Representable(v, p)
  {
    var half := Pow2(m - 1);
    assert Pow2(m) == 2 * half;
    hide Pow2, Representable;
    v := (2 * c + 1) * half;
    MoreMultiples(2 * c, 1, half);
    MoreMultiples(c, 1, 2 * half);
    Associate(c, 2, half);
    HoldsAt(v, p, 2 * c + 1, m - 1);
  }

  /** Between two integers that p - 1 bits hold, unless they are neighbours, is one that p bits hold. */
  lemma SomethingBetween(a: nat, b: nat, p: nat) returns (v: nat)
    requires p > 1 && a + 1 < b && Representable(a, p - 1) && Representable(b, p - 1)
    ensures a < v < b && Representable(v, p)
  {
    var k: nat, j: nat :| Holds(a, p - 1, k, j);
    var l: nat, i: nat :| Holds(b, p - 1, l, i);
    hide Pow2;
    var m := if j <= i then j else i;
    var c := AtUnit(a, p - 1, k, j, m);
    var d := AtUnit(b, p - 1, l, i, m);
    v := BetweenUnits(p, c, d, m);
  }

  lemma NearerBetween(r: int, r': int, x: int, v: int)
    requires r < v < r' && Distance(r, x) == Distance(r', x)
    ensures Distance(v, x) < Distance(r, x)
  {
  }

  lemma NotBoth(r: int, r': int, x: int, p: nat)
    requires p > 1 && Rounded(r, x, p) && Rounded(r', x, p)
    ensures r >= r'
  {
    if r < r' {
      hide Representable;
      assert Distance(r, x) == Distance(r', x) && Float(r, p - 1) && Float(r', p - 1);
      var v: int := 0;
      ZeroIsFloat(p);
      if r >= 0 { v := SomethingBetween(r, r', p); }
      else if r' <= 0 {
        v := SomethingBetween(-r', -r, p);
        v := -v;
      }
      assert Float(v, p);
      NearerBetween(r, r', x, v);
    }
  }

  /** There is exactly one way to round an integer, and it is Round. */
  lemma RoundIsTheOne(r: int, x: int, p: nat)
    requires p > 1
    ensures r == Round(x, p) <==> Rounded(r, x, p)
  {
    hide Rounded, Round;
    RoundIsRounded(x, p);
    if Rounded(r, x, p) {
      NotBoth(r, Round(x, p), x, p);
      NotBoth(Round(x, p), r, x, p);
    }
  }

  // ---------------------------------------------------------------- numbers that round alike

  /** Strictly between consecutive multiples of m. */
  predicate Inside(x: int, m: nat, c: int) { m * c < x < m * (c + 1) }

  /** Which side of a multiple of m a number is on depends only on the multiples it lies between. */
  lemma SideOf(x: nat, m: nat, c: nat, d: nat)
    requires Inside(x, m, c)
    ensures x < m * d <==> c < d
    ensures x != m * d
  {
  }

  lemma Boundaries(m: nat, h: nat, q: nat, unit: nat, d: nat)
    requires unit == 2 * (m * h) && d == 2 * (h * q)
    ensures q * unit == m * d && m * (d + h) == m * d + m * h && m * (d + 2 * h) == m * d + unit
  {
  }

  lemma NearestIn(x: nat, unit: nat, q: nat, half: nat)
    requires unit == 2 * half && unit > 0 && q * unit <= x < q * unit + unit && x != q * unit + half
    ensures Nearest(x, unit) == if x < q * unit + half then q else q + 1
  {
    QuotientIs(x, unit, q);
  }

  lemma SameSide(x: nat, y: nat, m: nat, c: nat, d: nat, b: nat)
    requires Inside(x, m, c) && Inside(y, m, c) && b == m * d
    ensures (x < b <==> y < b) && x != b && y != b
  {
    SideOf(x, m, c, d);
    SideOf(y, m, c, d);
  }

  lemma SameSides(x: nat, y: nat, m: nat, c: nat, h: nat, q: nat, half: nat, low: nat, unit: nat)
    requires Inside(x, m, c) && Inside(y, m, c) && Times(half, m, h) && unit == 2 * half && Times(low, q, unit)
    ensures (x < low <==> y < low) && (x < low + half <==> y < low + half) && (x < low + unit <==> y < low + unit)
    ensures x != low + half && y != low + half
  {
    hide Inside;
    var d := 2 * (h * q);
    Boundaries(m, h, q, unit, d);
    SameSide(x, y, m, c, d, low);
    SameSide(x, y, m, c, d + h, low + half);
    SameSide(x, y, m, c, d + 2 * h, low + unit);
  }

  lemma UnitsBelow(x: nat, unit: nat, q: nat, low: nat)
    requires unit > 0 && q == x / unit && low == q * unit
    ensures low <= x < low + unit
  {
  }

  /** With the halfway points among the multiples of m, nothing strictly between those can tell x from y. */
  lemma NearestAlike(x: nat, y: nat, m: nat, c: nat, h: nat, half: nat, unit: nat)
    requires Inside(x, m, c) && Inside(y, m, c) && Times(half, m, h) && half > 0 && unit == 2 * half
    ensures Nearest(x, unit) == Nearest(y, unit)
  {
    hide Inside, Nearest, Times;
    var q, low := Units(x, unit);
    SameSides(x, y, m, c, h, q, half, low, unit);
    NearestOfSides(x, y, unit, q, half, low);
  }

  lemma Units(x: nat, unit: nat) returns (q: nat, low: nat)
    requires unit > 0
    ensures Times(low, q, unit) && low <= x < low + unit
  {
    q := x / unit;
    low := q * unit;
    UnitsBelow(x, unit, q, low);
  }

  lemma NearestOfSides(x: nat, y: nat, unit: nat, q: nat, half: nat, low: nat)
    requires unit == 2 * half && half > 0 && Times(low, q, unit) && low <= x < low + unit && low <= y < low + unit
    requires x != low + half && y != low + half && (x < low + half <==> y < low + half)
    ensures Nearest(x, unit) == Nearest(y, unit)
  {
    hide Nearest;
    NearestIn(x, unit, q, half);
    NearestIn(y, unit, q, half);
  }

  lemma ExponentIs(x: nat, p: nat, e: nat)
    requires x < Pow2(p + e) && (e > 0 ==> Pow2(p + e - 1) <= x)
    ensures Exponent(x, p) == e
  {
    var f := Exponent(x, p);
    if f < e { Pow2Monotone(p + f, p + e - 1); }
    if e < f { Pow2Monotone(p + e, p + f - 1); }
  }

  lemma BelowAlike(x: nat, y: nat, c: nat, t: nat, n: nat)
    requires Inside(x, Pow2(t), c) && Inside(y, Pow2(t), c) && t <= n
    ensures x < Pow2(n) <==> y < Pow2(n)
  {
    hide Inside, Pow2;
    PowerSplit(n, t, n - t);
    SameSide(x, y, Pow2(t), c, Pow2(n - t), Pow2(n));
  }

  lemma ExponentAlike(x: nat, y: nat, c: nat, p: nat, t: nat)
    requires Inside(x, Pow2(t), c) && Inside(y, Pow2(t), c) && t < p
    ensures Exponent(x, p) == Exponent(y, p)
  {
    hide Inside, Pow2, Exponent;
    var e := Exponent(x, p);
    BelowAlike(x, y, c, t, p + e);
    if e > 0 { BelowAlike(x, y, c, t, p + e - 1); }
    ExponentIs(y, p, e);
  }

  /**
   * Numbers of more than p + t bits that agree but for their last t bits, neither ending in zeros there,
   * round alike.
   */
  lemma RoundAlike(x: nat, y: nat, c: nat, p: nat, t: nat)
    requires Inside(x, Pow2(t), c) && Inside(y, Pow2(t), c) && t < p && x >= Pow2(p + t)
    ensures RoundNat(x, p) == RoundNat(y, p)
  {
    ExponentAlike(x, y, c, p, t);
    var e := Exponent(x, p);
    if e <= t { Pow2Monotone(p + e, p + t); }
    Pow2Add(t, e - 1 - t);
    NearestAlike(x, y, Pow2(t), c, Pow2(e - 1 - t), Pow2(e - 1), Pow2(e));
  }

  lemma RoundAlikeSigned(x: int, y: int, c: int, p: nat, t: nat)
    requires Inside(x, Pow2(t), c) && Inside(y, Pow2(t), c) && t < p && (x >= Pow2(p + t) || -x >= Pow2(p + t))
    ensures Round(x, p) == Round(y, p)
  {
    var m := Pow2(t);
    Flipped(m, c);
    if c >= 0 {
      RoundAlike(x, y, c, p, t);
    } else {
      RoundAlike(-x, -y, -c - 1, p, t);
    }
  }

  lemma Flipped(m: nat, c: int)
    ensures c >= 0 ==> m * c >= 0
    ensures c < 0 ==> m * (-c - 1) == -(m * (c + 1)) && m * (-c) == -(m * c) && m * (-c - 1) >= 0
  {
    NonNegative(m, c);
    NonNegative(m, -c - 1);
    var d := -c - 1;
    assert m * (-d) == -(m * d);
    assert m * (-(d + 1)) == -(m * (d + 1));
  }

  lemma NonNegative(m: nat, c: int)
    ensures c >= 0 ==> m * c >= 0
  {
  }

  // ---------------------------------------------------------------- the conversions

  const F32 := 24
  const F64 := 53
  const TWO52 := 0x10_0000_0000_0000

  /** x shifted right by the width of unit, with a last bit that also stands for the bits lost. */
  function Sticky(x: int, unit: nat): int
    requires unit > 0
  {
    var a := x / unit;
    if x % unit != 0 && a % 2 == 0 then a + 1 else a
  }

  function ToF64(x: int): int { Round(x, F64) }
  function ToF32(x: int): int { Round(x, F32) }

  /** Absolute value in 64 bits: the minimum is its own. */
  function Abs64(x: int64): int64 {
    if x >= 0 || x == -0x8000_0000_0000_0000 then x else -x
  }

  function F32OfU32(x: u32): int {
    ToF32(if x < 0x8000_0000 then ToF64(x) else ToF64(Sticky(x, 2)) * 2)
  }

  function F32OfI64(x: int64): int {
    ToF32(if Abs64(x) < TWO52 then ToF64(x) else ToF64(Sticky(x, 4096)) * 4096)
  }

  function F32OfU64(x: u64): int {
    ToF32(if x < TWO52 then ToF64(x) else ToF64(Sticky(x, 4096)) * 4096)
  }

  function F64OfU64(x: u64): int {
    if x < 0x8000_0000_0000_0000 then ToF64(x) else ToF64(Sticky(x, 2)) * 2
  }

  /** The shifted number stands between the same multiples of twice the unit, unless nothing was lost. */
  lemma StickyInside(x: int, unit: nat)
    requires unit == 2 || unit == 4096
    ensures Sticky(x, unit) * unit == x
      || (Inside(x, 2 * unit, x / unit / 2) && Inside(Sticky(x, unit) * unit, 2 * unit, x / unit / 2))
  {
  }

  lemma NearestOfMultiple(k: nat, unit: nat, x: nat)
    requires unit > 0 && x == k * unit
    ensures Nearest(x, unit) == k
  {
    QuotientIs(x, unit, k);
  }

  lemma ExactNat(x: nat, p: nat)
    requires x < Pow2(p)
    ensures RoundNat(x, p) == x
  {
    assert Pow2(0) == 1;
    NearestOfMultiple(x, 1, x);
  }

  /** Integers below 2 to the p fit in p bits. */
  lemma Exact(x: int, p: nat)
    requires -(Pow2(p) as int) < x < Pow2(p)
    ensures Round(x, p) == x
  {
    ExactNat(if x >= 0 then x else -x, p);
  }

  lemma MultipleExact(x: nat, p: nat, k: nat)
    requires Times(x, k, Pow2(Exponent(x, p)))
    ensures RoundNat(x, p) == x
  {
    hide Nearest, Pow2;
    NearestOfMultiple(k, Pow2(Exponent(x, p)), x);
  }

  lemma PowerExact(n: nat, p: nat)
    requires n >= p > 0
    ensures RoundNat(Pow2(n), p) == Pow2(n)
  {
    hide Pow2, RoundNat, Exponent, Times;
    PowerExponent(n, p, n - p + 1);
    PowerSplit(n, p - 1, n - p + 1);
    MultipleExact(Pow2(n), p, Pow2(p - 1));
  }

  lemma PowerExponent(n: nat, p: nat, e: nat)
    requires n >= p > 0 && e == n - p + 1
    ensures Exponent(Pow2(n), p) == e
  {
    assert Pow2(n) < Pow2(n + 1);
    hide Pow2, Exponent;
    ExponentIs(Pow2(n), p, e);
  }

  lemma SmallPowers()
    ensures Pow2(1) == 2 && Pow2(2) == 4 && Pow2(4) == 16 && Pow2(8) == 256 && Pow2(13) == 8192
  {
  }

  lemma LargePowers()
    ensures Pow2(26) == 0x400_0000 && Pow2(37) == 0x20_0000_0000
    ensures Pow2(53) == 0x20_0000_0000_0000 && Pow2(55) == 0x80_0000_0000_0000 && Pow2(63) == 0x8000_0000_0000_0000
  {
    SmallPowers();
    hide Pow2;
    Pow2Add(13, 13);
    Pow2Add(8, 8);
    Pow2Add(16, 8);
    Pow2Add(24, 13);
    Pow2Add(37, 16);
    Pow2Add(53, 2);
    Pow2Add(55, 8);
  }

  /** From 53 bits to 24 the last 13 may be squeezed into one. */
  lemma StickyRounds(x: int, unit: nat, t: nat, p: nat)
    requires (unit == 2 && t == 2) || (unit == 4096 && t == 13)
    requires t < p && (x >= Pow2(p + t) || -x >= Pow2(p + t))
    ensures Round(Sticky(x, unit) * unit, p) == Round(x, p)
  {
    SmallPowers();
    hide Round, Sticky, Pow2;
    StickyInside(x, unit);
    if Sticky(x, unit) * unit != x {
      RoundAlikeSigned(x, Sticky(x, unit) * unit, x / unit / 2, p, t);
    }
  }

  lemma StickySmall(x: int, unit: nat)
    requires (unit == 2 && 0 <= x < 0x1_0000_0000)
      || (unit == 4096 && -0x8000_0000_0000_0000 <= x < 0x1_0000_0000_0000_0000)
    ensures -(Pow2(53) as int) < Sticky(x, unit) < Pow2(53)
  {
    LargePowers();
  }

  /** Each conversion gives the integer rounded once to the precision of its result. */
  lemma F32OfU32RoundsOnce(x: u32)
    ensures F32OfU32(x) == Round(x, F32)
  {
    LargePowers();
    hide Round, Sticky, Pow2;
    if x < 0x8000_0000 {
      Exact(x, F64);
    } else {
      StickySmall(x, 2);
      Exact(Sticky(x, 2), F64);
      StickyRounds(x, 2, 2, F32);
    }
  }

  lemma F32OfU64RoundsOnce(x: u64)
    ensures F32OfU64(x) == Round(x, F32)
  {
    LargePowers();
    hide Round, Sticky, Pow2;
    if x < TWO52 {
      Exact(x, F64);
    } else {
      StickySmall(x, 4096);
      Exact(Sticky(x, 4096), F64);
      StickyRounds(x, 4096, 13, F32);
    }
  }

  /** The least integer counts as small, its absolute value being negative, and is a power of two. */
  lemma F32OfI64RoundsOnce(x: int64)
    ensures F32OfI64(x) == Round(x, F32)
  {
    LargePowers();
    if x == -0x8000_0000_0000_0000 {
      PowerExact(63, F64);
    }
    hide Round, Sticky, Pow2;
    if x != -0x8000_0000_0000_0000 {
      if Abs64(x) < TWO52 {
        Exact(x, F64);
      } else {
        StickySmall(x, 4096);
        Exact(Sticky(x, 4096), F64);
        StickyRounds(x, 4096, 13, F32);
      }
    }
  }

  lemma ExponentDoubled(x: nat, p: nat, e: nat)
    requires x >= Pow2(p) && e == Exponent(x, p)
    ensures e > 0 && Exponent(2 * x, p) == e + 1 && Pow2(e + 1) == 2 * Pow2(e)
  {
  }

  /** Rounding commutes with doubling from p bits up. */
  lemma RoundDoubled(x: nat, p: nat)
    requires x >= Pow2(p)
    ensures Round(2 * x, p) == 2 * Round(x, p)
  {
    var e := Exponent(x, p);
    var unit, v := Pow2(e), RoundNat(x, p);
    hide Pow2, Exponent, Nearest, RoundNat, Times;
    ExponentDoubled(x, p, e);
    RoundTimes(x, p);
    NearestDoubled(x, unit);
    TimesDoubled(v, Nearest(x, unit), unit);
    RoundNatIs(2 * x, p, Nearest(x, unit), 2 * unit, 2 * v);
  }

  lemma RoundTimes(x: nat, p: nat)
    ensures Times(RoundNat(x, p), Nearest(x, Pow2(Exponent(x, p))), Pow2(Exponent(x, p)))
  {
  }

  lemma TimesDoubled(v: nat, n: nat, unit: nat)
    requires Times(v, n, unit)
    ensures Times(2 * v, n, 2 * unit)
  {
  }

  lemma RoundNatIs(x: nat, p: nat, n: nat, unit: nat, v: nat)
    requires unit == Pow2(Exponent(x, p)) && n == Nearest(x, unit) && Times(v, n, unit)
    ensures RoundNat(x, p) == v
  {
  }

  lemma NearestDoubled(x: nat, unit: nat)
    requires unit > 0
    ensures Nearest(2 * x, 2 * unit) == Nearest(x, unit)
  {
  }

  lemma F64OfU64RoundsOnce(x: u64)
    ensures F64OfU64(x) == Round(x, F64)
  {
    LargePowers();
    hide Round, Pow2;
    if x >= 0x8000_0000_0000_0000 {
      assert Sticky(x, 2) >= Pow2(53);
      RoundDoubled(Sticky(x, 2), F64);
      StickyRounds(x, 2, 2, F64);
    }
  }

  /** So each conversion gives the integer rounded to nearest with ties to even, to 24 or 53 bits, and no other. */
  lemma ConversionsRound(x: u32, y: int64, z: u64, r: int)
    ensures r == F32OfU32(x) <==> Rounded(r, x, 24)
    ensures r == F32OfI64(y) <==> Rounded(r, y, 24)
    ensures r == F32OfU64(z) <==> Rounded(r, z, 24)
    ensures r == F64OfU64(z) <==> Rounded(r, z, 53)
  {
    hide Round, Rounded, F32OfU32, F32OfI64, F32OfU64, F64OfU64;
    F32OfU32RoundsOnce(x);
    F32OfI64RoundsOnce(y);
    F32OfU64RoundsOnce(z);
    F64OfU64RoundsOnce(z);
    RoundIsTheOne(r, x, 24);
    RoundIsTheOne(r, y, 24);
    RoundIsTheOne(r, z, 24);
    RoundIsTheOne(r, z, 53);
  }
}
