/**
 * What the integer operators compute, said of the operands and the result alone: quotients and remainders by
 * the equation they solve, bitwise operators, shifts and rotations bit by bit, comparisons by the order of the
 * signed or the unsigned readings.
 */
module Operators {
  import opened Prelude
  import opened Division
  import opened Wasm

  /** How many integers there are of a size, and how many bits they have. */
  function Count(nn: Size): nat { if nn.S32? then 0x1_0000_0000 else 0x1_0000_0000_0000_0000 }
  function Bits(nn: Size): nat { if nn.S32? then 32 else 64 }

  predicate Fits(nn: Size, x: int) { -(Count(nn) / 2) <= x < Count(nn) / 2 }

  /** The non-negative reading of an integer of that size. */
  function Reading(nn: Size, x: int): (u: nat)
    requires Fits(nn, x)
    ensures u < Count(nn)
  {
    if x < 0 then x + Count(nn) else x
  }

  lemma ReadingIsU(nn: Size, x: int)
    requires Fits(nn, x)
    ensures InRange(nn, x) && U(nn, x) == Reading(nn, x)
  {
  }

  predicate Congruent(nn: Size, x: int, y: int) { (x - y) % Count(nn) == 0 }

  /** The one integer of that size congruent to x. */
  lemma WrapIs(nn: Size, x: int)
    ensures Fits(nn, Wrap(nn, x)) && Congruent(nn, Wrap(nn, x), x)
  {
    if nn.S32? { Remainder32(x, x / 0x1_0000_0000); } else { Remainder64(x, x / 0x1_0000_0000_0000_0000); }
  }

  lemma Remainder32(x: int, q: int)
    requires q == x / 0x1_0000_0000
    ensures (x % 0x1_0000_0000 - x) % 0x1_0000_0000 == 0
    ensures (x % 0x1_0000_0000 - 0x1_0000_0000 - x) % 0x1_0000_0000 == 0
  {
    assert x % 0x1_0000_0000 == x - q * 0x1_0000_0000;
  }

  lemma Remainder64(x: int, q: int)
    requires q == x / 0x1_0000_0000_0000_0000
    ensures (x % 0x1_0000_0000_0000_0000 - x) % 0x1_0000_0000_0000_0000 == 0
    ensures (x % 0x1_0000_0000_0000_0000 - 0x1_0000_0000_0000_0000 - x) % 0x1_0000_0000_0000_0000 == 0
  {
    assert x % 0x1_0000_0000_0000_0000 == x - q * 0x1_0000_0000_0000_0000;
  }

  lemma WrapUnsigned(nn: Size, x: nat)
    requires x < Count(nn)
    ensures Fits(nn, Wrap(nn, x)) && Reading(nn, Wrap(nn, x)) == x
  {
  }

  // ---------------------------------------------------------------- sums, differences, products

  lemma SumsWrap(nn: Size, a: int, b: int)
    requires Fits(nn, a) && Fits(nn, b)
    ensures ApplyBinop(nn, Add, a, b).Ok? && Congruent(nn, ApplyBinop(nn, Add, a, b).value, a + b)
    ensures ApplyBinop(nn, Sub, a, b).Ok? && Congruent(nn, ApplyBinop(nn, Sub, a, b).value, a - b)
    ensures ApplyBinop(nn, Mul, a, b).Ok? && Congruent(nn, ApplyBinop(nn, Mul, a, b).value, a * b)
  {
    hide Wrap, Count, Congruent;
    WrapIs(nn, a + b);
    WrapIs(nn, a - b);
    WrapIs(nn, a * b);
  }

  // ---------------------------------------------------------------- division

  function Abs(x: int): nat { if x < 0 then -x else x }

  /** q and r are the quotient and remainder of a by b, towards zero. */
  predicate TruncatedDivision(a: int, b: int, q: int, r: int) {
    a == q * b + r && Abs(r) < Abs(b) && (r == 0 || (r < 0 <==> a < 0))
  }

  lemma AbsDivision(a: int, b: int)
    requires b != 0
    ensures Abs(a) == (Abs(a) / Abs(b)) * Abs(b) + Abs(a) % Abs(b)
  {
  }

  lemma TruncIs(a: int, b: int)
    requires b != 0
    ensures TruncatedDivision(a, b, TruncDiv(a, b), TruncRem(a, b))
  {
    var q, r := Abs(a) / Abs(b), Abs(a) % Abs(b);
    AbsDivision(a, b);
    SignsOfProduct(q, b);
    assert TruncDiv(a, b) == if (a < 0) == (b < 0) then q else -q;
  }

  lemma SignsOfProduct(q: int, b: int)
    ensures (-q) * b == -(q * b) && q * (-b) == -(q * b) && (-q) * (-b) == q * b
  {
  }

  /** The quotient leaves the range in one case only. */
  lemma QuotientFits(nn: Size, a: int, b: int, q: int, r: int)
    requires Fits(nn, a) && Fits(nn, b) && b != 0 && TruncatedDivision(a, b, q, r)
    ensures Fits(nn, q) <==> !(a == -(Count(nn) / 2) && b == -1)
    ensures !Fits(nn, q) ==> q == Count(nn) / 2
  {
    QuotientSmall(a, b, q, r);
  }

  lemma QuotientSmall(a: int, b: int, q: int, r: int)
    requires b != 0 && TruncatedDivision(a, b, q, r)
    ensures b == 1 ==> q == a
    ensures b == -1 ==> q == -a
    ensures Abs(b) >= 2 ==> 2 * Abs(q) <= Abs(a)
  {
    AbsOfProduct(q, b);
    AtLeast(Abs(q), Abs(b));
    NoNearer(a, b, q * b, r);
  }

  lemma NoNearer(a: int, b: int, p: int, r: int)
    requires a == p + r && Abs(r) < Abs(b) && (r == 0 || (r < 0 <==> a < 0)) && (p == 0 || Abs(p) >= Abs(b))
    ensures Abs(p) <= Abs(a)
  {
  }

  lemma AtLeast(x: nat, y: nat)
    ensures x == 0 ==> x * y == 0
    ensures x > 0 ==> x * y >= y
    ensures y >= 2 ==> x * y >= 2 * x
  {
    if x > 0 { MoreMultiples(0, x, y); }
    if y >= 2 {
      MoreMultiples(0, y, x);
      Commutes(x, y);
    }
  }

  lemma Commutes(x: nat, y: nat)
    ensures x * y == y * x
  {
  }

  lemma AbsOfProduct(q: int, b: int)
    ensures Abs(q * b) == Abs(q) * Abs(b)
    ensures q * b > 0 ==> (q > 0 <==> b > 0)
  {
  }

  /**
   * div_s and rem_s: quotient and remainder towards zero, the remainder with the dividend's sign; both trap on
   * a zero divisor, and only div_s on the one quotient that does not fit.
   */
  lemma SignedDivision(nn: Size, a: int, b: int) returns (q: int, r: int)
    requires Fits(nn, a) && Fits(nn, b)
    ensures b == 0 ==> ApplyBinop(nn, Div(Signed), a, b) == Trapped(IntegerDivideByZero)
    ensures b == 0 ==> ApplyBinop(nn, Rem(Signed), a, b) == Trapped(IntegerDivideByZero)
    ensures b != 0 ==> TruncatedDivision(a, b, q, r) && ApplyBinop(nn, Rem(Signed), a, b) == Ok(r)
    ensures b != 0 ==> ApplyBinop(nn, Div(Signed), a, b) == if Fits(nn, q) then Ok(q) else Trapped(IntegerOverflow)
    ensures b != 0 ==> (Fits(nn, q) <==> !(a == -(Count(nn) / 2) && b == -1))
  {
    q, r := 0, 0;
    if b != 0 {
      q, r := TruncDiv(a, b), TruncRem(a, b);
      TruncIs(a, b);
      hide TruncDiv, TruncRem;
      QuotientFits(nn, a, b, q, r);
      assert Fits(nn, r);
    }
  }

  /** div_u and rem_u: the same of the non-negative readings; they trap on a zero divisor only. */
  lemma UnsignedDivision(nn: Size, a: int, b: int)
    requires Fits(nn, a) && Fits(nn, b)
    ensures b == 0 ==> ApplyBinop(nn, Div(Unsigned), a, b) == Trapped(IntegerDivideByZero)
    ensures b == 0 ==> ApplyBinop(nn, Rem(Unsigned), a, b) == Trapped(IntegerDivideByZero)
    ensures b != 0 ==>
      var (q, r) := (ApplyBinop(nn, Div(Unsigned), a, b), ApplyBinop(nn, Rem(Unsigned), a, b));
      && q.Ok? && r.Ok? && Fits(nn, q.value) && Fits(nn, r.value)
      && Reading(nn, a) == Reading(nn, q.value) * Reading(nn, b) + Reading(nn, r.value)
      && Reading(nn, r.value) < Reading(nn, b)
  {
    if b != 0 {
      ReadingIsU(nn, a);
      ReadingIsU(nn, b);
      hide Wrap, U, Reading, Fits, Count;
      var x, y := Reading(nn, a), Reading(nn, b);
      NotZero(nn, b);
      QuotientBelow(x, y);
      WrapUnsigned(nn, x / y);
      WrapUnsigned(nn, x % y);
    }
  }

  lemma NotZero(nn: Size, x: int)
    requires Fits(nn, x)
    ensures Reading(nn, x) == 0 <==> x == 0
  {
  }

  lemma QuotientBelow(x: nat, y: nat)
    requires y > 0
    ensures x / y <= x && x % y < y && x % y <= x && x == (x / y) * y + x % y
  {
    AtLeast(x / y, y);
  }

  // ---------------------------------------------------------------- bits

  /** Bit i of a number, the last one being bit 0. */
  predicate Bit(x: nat, i: nat) {
    if i == 0 then x % 2 == 1 else Bit(x / 2, i - 1)
  }

  /** Bit i of an integer in two's complement. */
  predicate BitOf(nn: Size, x: int, i: nat)
    requires Fits(nn, x)
  {
    Bit(Reading(nn, x), i)
  }

  lemma {:induction false} BitsDecide(x: nat, y: nat, w: nat)
    requires x < Pow2(w) && y < Pow2(w) && forall i: nat :: i < w ==> (Bit(x, i) <==> Bit(y, i))
    ensures x == y
  {
    if w > 0 {
      assert Bit(x, 0) <==> Bit(y, 0);
      forall i: nat | i < w - 1 ensures Bit(x / 2, i) <==> Bit(y / 2, i) { assert Bit(x, i + 1) <==> Bit(y, i + 1); }
      BitsDecide(x / 2, y / 2, w - 1);
    }
  }

  lemma Pow2Of8()
    ensures Pow2(8) == 256
  {
  }

  lemma CountIsPow2(nn: Size)
    ensures Count(nn) == Pow2(Bits(nn)) && Bits(nn) == Width(nn) && Count(nn) == Modulus(nn)
  {
    Pow2Of8();
    hide Pow2;
    Pow2Add(8, 8);
    Pow2Add(16, 16);
    Pow2Add(32, 32);
  }

  /** The bits determine the integer. */
  lemma SameBits(nn: Size, x: int, y: int)
    requires Fits(nn, x) && Fits(nn, y) && forall i: nat :: i < Bits(nn) ==> (BitOf(nn, x, i) <==> BitOf(nn, y, i))
    ensures x == y
  {
    CountIsPow2(nn);
    hide Pow2, Bit;
    forall i: nat | i < Bits(nn) ensures Bit(Reading(nn, x), i) <==> Bit(Reading(nn, y), i) {
      assert BitOf(nn, x, i) <==> BitOf(nn, y, i);
    }
    BitsDecide(Reading(nn, x), Reading(nn, y), Bits(nn));
  }

  lemma {:induction false} HighBits(x: nat, w: nat, i: nat)
    requires x < Pow2(w) && i >= w
    ensures !Bit(x, i)
  {
    if w > 0 { HighBits(x / 2, w - 1, i - 1); } else { ZeroBits(i); }
  }

  lemma {:induction false} ZeroBits(i: nat)
    ensures !Bit(0, i)
  {
    if i > 0 { ZeroBits(i - 1); }
  }

  function Combined(op: Binop, x: bool, y: bool): bool
    requires op.And? || op.Or? || op.Xor?
  {
    match op case And => x && y case Or => x || y case Xor => x != y
  }

  lemma {:induction false} BitwiseBits(op: Binop, x: nat, y: nat, w: nat, i: nat)
    requires (op.And? || op.Or? || op.Xor?) && i < w
    ensures Bit(Bitwise(op, x, y, w), i) <==> Combined(op, Bit(x, i), Bit(y, i))
  {
    if i > 0 { BitwiseBits(op, x / 2, y / 2, w - 1, i - 1); }
  }

  lemma {:induction false} BitwiseBelow(op: Binop, x: nat, y: nat, w: nat)
    requires op.And? || op.Or? || op.Xor?
    ensures Bitwise(op, x, y, w) < Pow2(w)
  {
    if w > 0 { BitwiseBelow(op, x / 2, y / 2, w - 1); }
  }

  /** x * 2^n, x / 2^n and x modulo 2^n by their bits. */
  function Up(x: int, n: nat): int { x * Pow2(n) }
  function Down(x: int, n: nat): int { x / Pow2(n) }
  function Low(x: int, n: nat): int { x % Pow2(n) }

  lemma QuotientOfHalf(x: nat, p: nat)
    requires p > 0
    ensures x / (2 * p) == (x / 2) / p && x % (2 * p) == x % 2 + 2 * ((x / 2) % p)
  {
    var q, r := (x / 2) / p, (x / 2) % p;
    assert x / 2 == q * p + r;
    assert q * (2 * p) == 2 * (q * p);
    QuotientIs(x, 2 * p, q);
  }

  lemma NoPlace(x: nat)
    ensures Up(x, 0) == x && Down(x, 0) == x && Low(x, 0) == 0
  {
  }

  lemma UpOne(x: nat, n: nat)
    requires n > 0
    ensures Up(x, n) == 2 * Up(x, n - 1)
  {
    assert x * (2 * Pow2(n - 1)) == 2 * (x * Pow2(n - 1));
  }

  lemma DownOne(x: nat, n: nat)
    requires n > 0
    ensures Down(x, n) == Down(x / 2, n - 1) && Low(x, n) == x % 2 + 2 * Low(x / 2, n - 1)
  {
    var p := Pow2(n - 1);
    assert Pow2(n) == 2 * p;
    hide Pow2;
    QuotientOfHalf(x, p);
  }

  lemma NotNegative(x: nat, n: nat)
    ensures Up(x, n) >= 0 && Down(x, n) >= 0 && Low(x, n) >= 0
  {
    hide Pow2;
    AtLeast(x, Pow2(n));
    Quotients(x, Pow2(n));
  }

  lemma Quotients(x: nat, p: nat)
    requires p > 0
    ensures x / p >= 0 && x % p >= 0
  {
  }

  /** One place less is one halving less. */
  lemma OnePlace(x: nat, n: nat)
    ensures Up(x, n) >= 0 && Down(x, n) >= 0 && Low(x, n) >= 0
    ensures n == 0 ==> Up(x, n) == x && Down(x, n) == x && Low(x, n) == 0
    ensures n > 0 ==> Up(x, n) == 2 * Up(x, n - 1) && Down(x, n) == Down(x / 2, n - 1)
    ensures n > 0 ==> Low(x, n) == x % 2 + 2 * Low(x / 2, n - 1)
  {
    hide Up, Down, Low;
    NotNegative(x, n);
    NoPlace(x);
    if n > 0 {
      UpOne(x, n);
      DownOne(x, n);
    }
  }

  lemma {:induction false} UpBits(x: nat, n: nat, i: nat)
    ensures Up(x, n) >= 0 && (Bit(Up(x, n), i) <==> i >= n && Bit(x, i - n))
  {
    hide Up, Down, Low;
    OnePlace(x, n);
    if n > 0 {
      OnePlace(x, n - 1);
      if i > 0 { UpBits(x, n - 1, i - 1); }
    }
  }

  lemma {:induction false} DownBits(x: nat, n: nat, i: nat)
    ensures Down(x, n) >= 0 && (Bit(Down(x, n), i) <==> Bit(x, i + n))
  {
    hide Up, Down, Low;
    OnePlace(x, n);
    if n > 0 { DownBits(x / 2, n - 1, i); }
  }

  lemma {:induction false} LowBits(x: nat, n: nat, i: nat)
    ensures Low(x, n) >= 0 && (Bit(Low(x, n), i) <==> i < n && Bit(x, i))
  {
    hide Up, Down, Low;
    OnePlace(x, n);
    if n == 0 {
      ZeroBits(i);
    } else {
      OnePlace(x / 2, n - 1);
      if i > 0 { LowBits(x / 2, n - 1, i - 1); }
    }
  }

  /** A low part and a high part. */
  lemma {:induction false} PartsBits(x: nat, m: nat, y: nat, i: nat)
    requires x < Pow2(m)
    ensures Bit(x + y * Pow2(m), i) <==> if i < m then Bit(x, i) else Bit(y, i - m)
  {
    if m > 0 {
      var z := x + y * Pow2(m);
      assert z == x + 2 * (y * Pow2(m - 1));
      assert z / 2 == x / 2 + y * Pow2(m - 1) && z % 2 == x % 2;
      if i > 0 { PartsBits(x / 2, m - 1, y, i - 1); }
    }
  }

  /** z has low as its low part, below a multiple of k. */
  predicate Parts(z: nat, low: nat, y: nat, k: nat) { low < k && z == low + y * k }

  lemma PartsOf(z: nat, low: nat, y: nat, m: nat, i: nat)
    requires Parts(z, low, y, Pow2(m))
    ensures Bit(z, i) <==> if i < m then Bit(low, i) else Bit(y, i - m)
  {
    PartsBits(low, m, y, i);
  }

  lemma {:induction false} OnesBits(n: nat, i: nat)
    ensures Bit(Pow2(n) - 1, i) <==> i < n
  {
    if n == 0 {
      ZeroBits(i);
    } else if i > 0 {
      assert (Pow2(n) - 1) / 2 == Pow2(n - 1) - 1;
      OnesBits(n - 1, i - 1);
    }
  }

  /** and, or and xor, bit by bit. */
  lemma BitwiseIsBitwise(nn: Size, op: Binop, a: int, b: int, i: nat)
    requires Fits(nn, a) && Fits(nn, b) && (op.And? || op.Or? || op.Xor?) && i < Bits(nn)
    ensures var r := ApplyBinop(nn, op, a, b);
      && r.Ok? && Fits(nn, r.value)
      && (BitOf(nn, r.value, i) <==> match op
          case And => BitOf(nn, a, i) && BitOf(nn, b, i)
          case Or => BitOf(nn, a, i) || BitOf(nn, b, i)
          case Xor => BitOf(nn, a, i) != BitOf(nn, b, i))
  {
    ReadingIsU(nn, a);
    ReadingIsU(nn, b);
    CountIsPow2(nn);
    hide Bit, Bitwise, Pow2, U, Wrap, Reading;
    var z := Bitwise(op, Reading(nn, a), Reading(nn, b), Bits(nn));
    BitwiseBelow(op, Reading(nn, a), Reading(nn, b), Bits(nn));
    BitwiseBits(op, Reading(nn, a), Reading(nn, b), Bits(nn), i);
    WrapUnsigned(nn, z);
  }

  // ---------------------------------------------------------------- shifts

  /** The count of a shift or rotation: the second operand without sign, modulo the size. */
  function Places(nn: Size, b: int): (n: nat)
    requires Fits(nn, b)
    ensures n < Bits(nn)
  {
    Reading(nn, b) % Bits(nn)
  }

  lemma WrapIsLow(nn: Size, x: nat)
    ensures Fits(nn, Wrap(nn, x)) && Reading(nn, Wrap(nn, x)) == Low(x, Bits(nn))
  {
    CountIsPow2(nn);
    hide Pow2;
  }

  lemma WrapBits(nn: Size, x: nat, i: nat)
    requires i < Bits(nn)
    ensures Fits(nn, Wrap(nn, x)) && (BitOf(nn, Wrap(nn, x), i) <==> Bit(x, i))
  {
    WrapIsLow(nn, x);
    hide Bit, Low, Wrap, Reading;
    LowBits(x, Bits(nn), i);
  }

  lemma LeftOfReading(nn: Size, x: int, n: nat)
    requires Fits(nn, x) && n < Bits(nn)
    ensures ShiftLeft(nn, x, n) == Wrap(nn, Up(Reading(nn, x), n))
  {
    UpOfSum(x, Count(nn), n);
    WrapAgain(nn, Up(x, n), Pow2(n));
    LeftIs(nn, x, n);
    hide Up, Wrap, Pow2, ShiftLeft;
  }

  lemma LeftIs(nn: Size, x: int, n: nat)
    requires n < Bits(nn)
    ensures ShiftLeft(nn, x, n) == Wrap(nn, Up(x, n))
  {
    assert n % Width(nn) == n;
    hide Wrap, Pow2;
  }

  lemma RightOfReading(nn: Size, x: int, n: nat)
    requires Fits(nn, x) && n < Bits(nn)
    ensures ShiftRightU(nn, x, n) == Wrap(nn, Down(Reading(nn, x), n))
  {
    ReadingIsU(nn, x);
    assert n % Width(nn) == n;
    hide Wrap, Pow2, U, Reading;
  }

  /** The shifts on the non-negative reading. */
  lemma ShiftsOfReading(nn: Size, x: int, n: nat)
    requires Fits(nn, x) && n < Bits(nn)
    ensures var u := Reading(nn, x);
      && Up(u, n) >= 0 && ShiftLeft(nn, x, n) == Wrap(nn, Up(u, n))
      && Down(u, n) >= 0 && ShiftRightU(nn, x, n) == Wrap(nn, Down(u, n))
  {
    hide Up, Down, Wrap, ShiftLeft, ShiftRightU, Reading;
    LeftOfReading(nn, x, n);
    RightOfReading(nn, x, n);
    NotNegative(Reading(nn, x), n);
  }

  lemma UpOfSum(x: int, m: nat, n: nat)
    ensures Up(x + m, n) == Up(x, n) + Pow2(n) * m
  {
  }

  lemma {:induction false} WrapAgain(nn: Size, x: int, k: nat)
    ensures Wrap(nn, x + k * Count(nn)) == Wrap(nn, x)
  {
    if k > 0 {
      var y := x + (k - 1) * Count(nn);
      assert x + k * Count(nn) == y + Count(nn);
      OnceMore(nn, y);
      hide Wrap;
      WrapAgain(nn, x, k - 1);
    }
  }

  lemma OnceMore(nn: Size, y: int)
    ensures Wrap(nn, y + Count(nn)) == Wrap(nn, y)
  {
    if nn.S32? { ModOnceMore32(y); } else { ModOnceMore64(y); }
  }

  lemma ModOnceMore32(y: int)
    ensures (y + 0x1_0000_0000) % 0x1_0000_0000 == y % 0x1_0000_0000
  {
  }

  lemma ModOnceMore64(y: int)
    ensures (y + 0x1_0000_0000_0000_0000) % 0x1_0000_0000_0000_0000 == y % 0x1_0000_0000_0000_0000
  {
  }

  lemma ShiftLeftBits(nn: Size, x: int, n: nat, i: nat)
    requires Fits(nn, x) && n < Bits(nn) && i < Bits(nn)
    ensures Fits(nn, ShiftLeft(nn, x, n)) && (BitOf(nn, ShiftLeft(nn, x, n), i) <==> i >= n && BitOf(nn, x, i - n))
  {
    hide Bit, Up, Down, Wrap, Reading, ShiftLeft, ShiftRightU;
    ShiftsOfReading(nn, x, n);
    WrapBits(nn, Up(Reading(nn, x), n), i);
    UpBits(Reading(nn, x), n, i);
  }

  lemma ShiftRightBits(nn: Size, x: int, n: nat, i: nat)
    requires Fits(nn, x) && n < Bits(nn) && i < Bits(nn)
    ensures Fits(nn, ShiftRightU(nn, x, n))
    ensures BitOf(nn, ShiftRightU(nn, x, n), i) <==> i + n < Bits(nn) && BitOf(nn, x, i + n)
  {
    hide Bit, Up, Down, Wrap, Reading, ShiftLeft, ShiftRightU;
    ShiftsOfReading(nn, x, n);
    WrapBits(nn, Down(Reading(nn, x), n), i);
    DownBits(Reading(nn, x), n, i);
    if i + n >= Bits(nn) { NoBitsAbove(nn, x, i + n); }
  }

  lemma NoBitsAbove(nn: Size, x: int, i: nat)
    requires Fits(nn, x) && i >= Bits(nn)
    ensures !BitOf(nn, x, i)
  {
    CountIsPow2(nn);
    hide Bit, Pow2;
    HighBits(Reading(nn, x), Bits(nn), i);
  }

  lemma FloorIs(x: int, p: nat, q: int)
    requires p > 0 && q * p <= x < q * p + p
    ensures x / p == q
  {
    var q', r' := x / p, x % p;
    assert x == q' * p + r';
    assert (q - q') * p == q * p - q' * p && (q' - q) * p == q' * p - q * p;
    if q > q' {
      AtLeast(q - q', p);
    } else if q < q' {
      AtLeast(q' - q, p);
    }
  }

  lemma NegativeQuotient(x: int, u: nat, p: nat, k: nat)
    requires p > 0 && u == x + k * p
    ensures x / p == u / p - k && (u < k * p ==> u / p < k)
  {
    var q, r := u / p, u % p;
    assert u == q * p + r;
    assert (q - k) * p == q * p - k * p;
    FloorIs(x, p, q - k);
    if q >= k {
      MoreMultiples(k, q - k, p);
    }
  }

  lemma WideAsParts(w: nat, n: nat)
    requires n <= w
    ensures Pow2(w) == Pow2(w - n) * Pow2(n) && Pow2(w) - Pow2(w - n) == (Pow2(n) - 1) * Pow2(w - n)
  {
    Pow2Add(w - n, n);
    Commutes(Pow2(w - n), Pow2(n));
    assert (Pow2(n) - 1) * Pow2(w - n) == Pow2(n) * Pow2(w - n) - Pow2(w - n);
  }

  lemma ProductSmall(q: int, p: nat, r: nat)
    requires r < p
    ensures q >= 0 ==> q <= q * p + r
    ensures q < 0 ==> q * p + r <= q + p - 1 && q * p + r < 0 && q >= q * p + r
  {
    if q >= 0 {
      AtLeast(p, q);
      Commutes(p, q);
    } else {
      var d: nat := -q - 1;
      AtLeast(p, d);
      Commutes(p, d);
      assert q * p == -(d * p) - p;
    }
  }

  lemma DownFits(nn: Size, x: int, n: nat)
    requires Fits(nn, x)
    ensures Fits(nn, Down(x, n)) && (Down(x, n) < 0 <==> x < 0)
  {
    var p := Pow2(n);
    var q, r := x / p, x % p;
    assert x == q * p + r;
    ProductSmall(q, p, r);
  }

  lemma DownOfNegative(x: int, u: nat, n: nat, k: nat)
    requires u == x + k * Pow2(n)
    ensures Down(x, n) == Down(u, n) - k && (u < k * Pow2(n) ==> Down(u, n) < k) && Down(u, n) >= 0
  {
    hide Pow2;
    NegativeQuotient(x, u, Pow2(n), k);
    NotNegative(u, n);
  }

  /** The reading of a negative number shifted: its own bits below, ones above. */
  lemma NegativeShift(nn: Size, x: int, n: nat)
    requires Fits(nn, x) && n < Bits(nn) && x < 0
    ensures Fits(nn, Down(x, n)) && Down(Reading(nn, x), n) >= 0
    ensures Parts(Reading(nn, Down(x, n)), Down(Reading(nn, x), n), Pow2(n) - 1, Pow2(Bits(nn) - n))
  {
    hide Pow2, Down;
    CountIsPow2(nn);
    WideAsParts(Bits(nn), n);
    DownFits(nn, x, n);
    DownOfNegative(x, Reading(nn, x), n, Pow2(Bits(nn) - n));
  }

  lemma NegativeShiftBits(nn: Size, x: int, n: nat, i: nat)
    requires Fits(nn, x) && n < Bits(nn) && i < Bits(nn) && x < 0
    ensures Fits(nn, Down(x, n))
    ensures BitOf(nn, Down(x, n), i) <==> i + n >= Bits(nn) || BitOf(nn, x, i + n)
  {
    var m := Bits(nn) - n;
    hide Bit, Pow2, Reading, Fits, Parts, Down;
    NegativeShift(nn, x, n);
    PartsOf(Reading(nn, Down(x, n)), Down(Reading(nn, x), n), Pow2(n) - 1, m, i);
    if i < m { DownBits(Reading(nn, x), n, i); } else { OnesBits(n, i - m); }
  }

  /** The arithmetic shift: the sign fills the places that become free. */
  lemma ShiftSignedBits(nn: Size, x: int, n: nat, i: nat)
    requires Fits(nn, x) && n < Bits(nn) && i < Bits(nn)
    ensures Fits(nn, Down(x, n))
    ensures BitOf(nn, Down(x, n), i) <==> if i + n < Bits(nn) then BitOf(nn, x, i + n) else x < 0
  {
    if x < 0 {
      hide Bit, Reading, Fits, BitOf, Down;
      NegativeShiftBits(nn, x, n, i);
    } else {
      hide Bit, Down;
      DownBits(x, n, i);
      DownFits(nn, x, n);
      if i + n >= Bits(nn) { NoBitsAbove(nn, x, i + n); }
    }
  }

  lemma SignedShiftIs(nn: Size, a: int, b: int)
    requires Fits(nn, a) && Fits(nn, b)
    ensures ApplyBinop(nn, Shr(Signed), a, b) == Ok(Down(a, Places(nn, b)))
  {
    ReadingIsU(nn, b);
    hide Pow2, U;
    DownFits(nn, a, Places(nn, b));
  }

  /** The three shifts, with the count reduced. */
  lemma ShiftsAre(nn: Size, a: int, b: int)
    requires Fits(nn, a) && Fits(nn, b)
    ensures var n := Places(nn, b);
      && ApplyBinop(nn, Shl, a, b) == Ok(ShiftLeft(nn, a, n))
      && ApplyBinop(nn, Shr(Unsigned), a, b) == Ok(ShiftRightU(nn, a, n))
      && ApplyBinop(nn, Shr(Signed), a, b) == Ok(Down(a, n))
  {
    ReadingIsU(nn, b);
    var n := Places(nn, b);
    assert n % Width(nn) == n;
    hide Pow2, U, Wrap, Down;
    DownFits(nn, a, n);
    SignedShiftIs(nn, a, b);
  }

  /** shl, shr_u and shr_s move bit i by as many places as the second operand says. */
  lemma ShiftsMoveBits(nn: Size, a: int, b: int, i: nat)
    requires Fits(nn, a) && Fits(nn, b) && i < Bits(nn)
    ensures var n, l, u, s := Places(nn, b), ApplyBinop(nn, Shl, a, b), ApplyBinop(nn, Shr(Unsigned), a, b),
        ApplyBinop(nn, Shr(Signed), a, b);
      && l.Ok? && u.Ok? && s.Ok? && Fits(nn, l.value) && Fits(nn, u.value) && Fits(nn, s.value)
      && (BitOf(nn, l.value, i) <==> i >= n && BitOf(nn, a, i - n))
      && (BitOf(nn, u.value, i) <==> i + n < Bits(nn) && BitOf(nn, a, i + n))
      && (BitOf(nn, s.value, i) <==> if i + n < Bits(nn) then BitOf(nn, a, i + n) else a < 0)
  {
    var n := Places(nn, b);
    ShiftsAre(nn, a, b);
    hide ApplyBinop, ShiftLeft, ShiftRightU, Down, BitOf, Places, Fits;
    ShiftLeftBits(nn, a, n, i);
    ShiftRightBits(nn, a, n, i);
    ShiftSignedBits(nn, a, n, i);
  }

  // ---------------------------------------------------------------- rotations

  /** One number's bits or another's, as an integer. */
  function Joint(nn: Size, x: int, y: int): int { Wrap(nn, Bitwise(Or, U(nn, x), U(nn, y), Width(nn))) }

  lemma OrBits(nn: Size, x: int, y: int, i: nat)
    requires Fits(nn, x) && Fits(nn, y) && i < Bits(nn)
    ensures var r := Joint(nn, x, y);
      Fits(nn, r) && (BitOf(nn, r, i) <==> BitOf(nn, x, i) || BitOf(nn, y, i))
  {
    BitwiseIsBitwise(nn, Or, x, y, i);
  }

  /** A rotation the other way round. */
  function Back(nn: Size, n: nat): nat
    requires n < Bits(nn)
  {
    if n == 0 then 0 else Bits(nn) - n
  }

  lemma CountAgain(nn: Size, n: nat)
    requires n < Bits(nn)
    ensures (Bits(nn) - n) % Width(nn) == Back(nn, n) % Width(nn) == Back(nn, n)
  {
  }

  lemma FullTurn(nn: Size, a: int, n: nat)
    requires n < Bits(nn)
    ensures ShiftLeft(nn, a, Width(nn) - n) == ShiftLeft(nn, a, Back(nn, n))
    ensures ShiftRightU(nn, a, Width(nn) - n) == ShiftRightU(nn, a, Back(nn, n))
  {
    CountAgain(nn, n);
    hide Pow2, Wrap, U, Back;
  }

  lemma CountOf(nn: Size, b: int)
    requires Fits(nn, b)
    ensures U(nn, b) % Width(nn) == Places(nn, b)
  {
    ReadingIsU(nn, b);
    hide U, Reading;
  }

  /** Rotations are two shifts joined. */
  lemma RotationsAreShifts(nn: Size, a: int, b: int)
    requires Fits(nn, a) && Fits(nn, b)
    ensures var n := Places(nn, b);
      && ApplyBinop(nn, Rotl, a, b) == Ok(Joint(nn, ShiftLeft(nn, a, n), ShiftRightU(nn, a, Back(nn, n))))
      && ApplyBinop(nn, Rotr, a, b) == Ok(Joint(nn, ShiftRightU(nn, a, n), ShiftLeft(nn, a, Back(nn, n))))
  {
    FitsInRange(nn, a);
    FitsInRange(nn, b);
    CountOf(nn, b);
    FullTurn(nn, a, Places(nn, b));
    hide ShiftLeft, ShiftRightU, Wrap, Bitwise, U, Places, Back, Fits, InRange, Reading;
  }

  lemma FitsInRange(nn: Size, x: int)
    requires Fits(nn, x)
    ensures InRange(nn, x)
  {
  }

  /** rotl and rotr: what leaves at one end comes in at the other. */
  lemma RotationsMoveBits(nn: Size, a: int, b: int, i: nat)
    requires Fits(nn, a) && Fits(nn, b) && i < Bits(nn)
    ensures var n, w, l, r := Places(nn, b), Bits(nn), ApplyBinop(nn, Rotl, a, b), ApplyBinop(nn, Rotr, a, b);
      && l.Ok? && r.Ok? && Fits(nn, l.value) && Fits(nn, r.value)
      && (BitOf(nn, l.value, i) <==> BitOf(nn, a, if i >= n then i - n else i + w - n))
      && (BitOf(nn, r.value, i) <==> BitOf(nn, a, if i + n < w then i + n else i + n - w))
  {
    var n := Places(nn, b);
    RotationsAreShifts(nn, a, b);
    BackAgain(nn, n);
    hide ApplyBinop, Joint, ShiftLeft, ShiftRightU, BitOf, Places, Fits, Back;
    RotationBits(nn, a, n, Back(nn, n), i);
    RotationBits(nn, a, Back(nn, n), n, i);
    assert BitOf(nn, a, if i >= Back(nn, n) then i - Back(nn, n) else i + Bits(nn) - Back(nn, n))
      == BitOf(nn, a, if i + n < Bits(nn) then i + n else i + n - Bits(nn));
  }

  lemma BackAgain(nn: Size, n: nat)
    requires n < Bits(nn)
    ensures Back(nn, n) < Bits(nn) && Back(nn, Back(nn, n)) == n
    ensures n > 0 ==> Back(nn, n) == Bits(nn) - n
    ensures n == 0 ==> Back(nn, n) == 0
  {
  }

  /** A shift to the left by n and one to the right by the rest, joined in either order. */
  lemma RotationBits(nn: Size, a: int, n: nat, back: nat, i: nat)
    requires Fits(nn, a) && n < Bits(nn) && back == Back(nn, n) && i < Bits(nn)
    ensures var x, y := ShiftLeft(nn, a, n), ShiftRightU(nn, a, back);
      var l, r := Joint(nn, x, y), Joint(nn, y, x);
      && Fits(nn, l) && Fits(nn, r) && (BitOf(nn, l, i) <==> BitOf(nn, r, i))
      && (BitOf(nn, l, i) <==> BitOf(nn, a, if i >= n then i - n else i + Bits(nn) - n))
  {
    hide Joint, ShiftLeft, ShiftRightU, BitOf, Fits;
    LeftJoined(nn, a, n, back, i);
    OrBits(nn, ShiftLeft(nn, a, n), ShiftRightU(nn, a, back), i);
    OrBits(nn, ShiftRightU(nn, a, back), ShiftLeft(nn, a, n), i);
  }

  lemma LeftJoined(nn: Size, a: int, n: nat, back: nat, i: nat)
    requires Fits(nn, a) && n < Bits(nn) && back < Bits(nn) && i < Bits(nn)
    ensures Fits(nn, ShiftLeft(nn, a, n)) && Fits(nn, ShiftRightU(nn, a, back))
    ensures BitOf(nn, ShiftLeft(nn, a, n), i) <==> i >= n && BitOf(nn, a, i - n)
    ensures BitOf(nn, ShiftRightU(nn, a, back), i) <==> i + back < Bits(nn) && BitOf(nn, a, i + back)
  {
    hide ShiftLeft, ShiftRightU, BitOf, Fits;
    ShiftLeftBits(nn, a, n, i);
    ShiftRightBits(nn, a, back, i);
  }

  // ---------------------------------------------------------------- comparisons

  /** The signed comparisons order the integers, the unsigned ones their non-negative readings. */
  lemma ComparisonsOrder(nn: Size, a: int, b: int)
    requires Fits(nn, a) && Fits(nn, b)
    ensures ApplyRelop(nn, Eq, a, b) <==> a == b
    ensures ApplyRelop(nn, Ne, a, b) <==> a != b
    ensures ApplyRelop(nn, Lt(Signed), a, b) <==> a < b
    ensures ApplyRelop(nn, Gt(Signed), a, b) <==> b < a
    ensures ApplyRelop(nn, Le(Signed), a, b) <==> a <= b
    ensures ApplyRelop(nn, Ge(Signed), a, b) <==> b <= a
    ensures ApplyRelop(nn, Lt(Unsigned), a, b) <==> Reading(nn, a) < Reading(nn, b)
    ensures ApplyRelop(nn, Gt(Unsigned), a, b) <==> Reading(nn, b) < Reading(nn, a)
    ensures ApplyRelop(nn, Le(Unsigned), a, b) <==> Reading(nn, a) <= Reading(nn, b)
    ensures ApplyRelop(nn, Ge(Unsigned), a, b) <==> Reading(nn, b) <= Reading(nn, a)
  {
    ReadingIsU(nn, a);
    ReadingIsU(nn, b);
    hide U, Reading;
  }
}
