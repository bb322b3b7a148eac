/** Multiples, quotients and remainders. */
module Division {
  lemma {:induction false} MoreMultiples(q: nat, d: nat, unit: nat)
    ensures (q + d) * unit == q * unit + d * unit
    ensures d >= 1 ==> d * unit >= unit
    ensures d >= 2 ==> d * unit >= 2 * unit
  {
  }

  lemma Multiples(q: nat, k: nat, unit: nat)
    ensures k == q ==> k * unit == q * unit
    ensures k == q + 1 ==> k * unit == q * unit + unit
    ensures k > q + 1 ==> k * unit >= q * unit + 2 * unit
    ensures k < q ==> k * unit + unit <= q * unit
  {
    if k > q + 1 {
      MoreMultiples(q, k - q, unit);
    } else if k < q {
      MoreMultiples(k, q - k, unit);
    }
  }

  lemma QuotientIs(x: nat, unit: nat, q: nat)
    requires unit > 0 && q * unit <= x < q * unit + unit
    ensures x / unit == q && x % unit == x - q * unit
  {
    var q', r' := x / unit, x % unit;
    assert x == q' * unit + r';
    Multiples(q, q', unit);
  }
}
