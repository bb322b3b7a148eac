/**
 * The C library's qsort: quicksort with three-way partitioning on elements laid out in bytes. Elements
 * equal to the pivot are first gathered at both ends of the range and then swapped to its middle.
 */
module QSort {
  import opened Words
  import opened Elements

  // ---------------------------------------------------------------- rearrangements

  /** v' is v with the elements from l up to, not including, h permuted. */
  ghost predicate Rearranged<T>(v: seq<T>, v': seq<T>, l: int, h: int) {
    0 <= l <= h <= |v| && |v'| == |v| && v'[..l] == v[..l] && v'[h..] == v[h..]
      && multiset(v'[l..h]) == multiset(v[l..h])
  }

  lemma SwapRearranges<T>(v: seq<T>, a: nat, b: nat, l: int, h: int)
    requires 0 <= l <= a < h <= |v| && l <= b < h
    ensures Rearranged(v, Swapped(v, a, b), l, h)
  {
  }

  lemma RearrangedWider<T>(v: seq<T>, v': seq<T>, l: int, h: int, l': int, h': int)
    requires Rearranged(v, v', l, h) && 0 <= l' <= l && h <= h' <= |v|
    ensures Rearranged(v, v', l', h')
  {
    assert v[l'..h'] == v[l'..l] + v[l..h] + v[h..h'];
    assert v'[l'..h'] == v'[l'..l] + v'[l..h] + v'[h..h'];
    assert v'[l'..l] == v'[..l][l'..] == v[..l][l'..] == v[l'..l];
    assert v'[h..h'] == v'[h..][..h' - h] == v[h..][..h' - h] == v[h..h'];
    assert v'[..l'] == v'[..l][..l'] == v[..l][..l'] == v[..l'];
    assert v'[h'..] == v'[h..][h' - h..] == v[h..][h' - h..] == v[h'..];
  }

  lemma RearrangedOutside<T>(v: seq<T>, v': seq<T>, l: int, h: int, x: int)
    requires Rearranged(v, v', l, h) && 0 <= x < |v| && !(l <= x < h)
    ensures v'[x] == v[x]
  {
  }

  /** What holds of every element of a range holds of every element after rearranging it. */
  lemma RearrangedKeeps<T(!new)>(v: seq<T>, v': seq<T>, l: int, h: int, P: T -> bool)
    requires Rearranged(v, v', l, h) && forall x :: l <= x < h ==> P(v[x])
    ensures forall x :: l <= x < h ==> P(v'[x])
  {
    forall x | l <= x < h ensures P(v'[x]) {
      assert v'[x] == v'[l..h][x - l];
      assert v'[x] in multiset(v'[l..h]);
      assert v'[x] in v[l..h];
    }
  }

  /** Memory differs only in the order of the elements from l up to, not including, h. */
  ghost predicate Permuted(lay: Layout, bytes: seq<byte>, bytes': seq<byte>, l: int, h: int) {
    && lay.Fits(bytes) && lay.Fits(bytes') && SameAround(lay, bytes, bytes')
    && Rearranged(View(lay, bytes), View(lay, bytes'), l, h)
  }

  lemma PermutedNone(lay: Layout, bytes: seq<byte>, l: int, h: int)
    requires lay.Fits(bytes) && 0 <= l <= h <= lay.n
    ensures Permuted(lay, bytes, bytes, l, h)
  {
    OffsetStep(lay, 0, lay.n);
  }

  lemma PermutedTwice(lay: Layout, bytes: seq<byte>, bytes': seq<byte>, bytes'': seq<byte>, l: int, h: int)
    requires Permuted(lay, bytes, bytes', l, h) && Permuted(lay, bytes', bytes'', l, h)
    ensures Permuted(lay, bytes, bytes'', l, h)
  {
  }

  lemma PermutedWider(lay: Layout, bytes: seq<byte>, bytes': seq<byte>, l: int, h: int, l': int, h': int)
    requires Permuted(lay, bytes, bytes', l, h) && 0 <= l' <= l && h <= h' <= lay.n
    ensures Permuted(lay, bytes, bytes', l', h')
  {
    hide Rearranged, View;
    RearrangedWider(View(lay, bytes), View(lay, bytes'), l, h, l', h');
  }

  /** Exchange two elements of the range from l up to, not including, h. */
  method ExchWithin(lay: Layout, mem: array<byte>, a: nat, b: nat, ghost l: nat, ghost h: nat)
    requires lay.Fits(mem[..]) && l <= a < h && l <= b < h <= lay.n
    modifies mem
    ensures Permuted(lay, old(mem[..]), mem[..], l, h)
    ensures View(lay, mem[..]) == Swapped(View(lay, old(mem[..])), a, b)
  {
    hide Rearranged, View, Swapped, SameAround, Layout.Fits;
    Exch(lay, mem, a, b);
    SwapRearranges(View(lay, old(mem[..])), a, b, l, h);
  }

  // ---------------------------------------------------------------- zones

  ghost predicate Below(cmp: Compare, v: seq<Element>, piv: Element, l: int, h: int) {
    0 <= l && h <= |v| && forall x :: l <= x < h ==> cmp(v[x], piv) < 0
  }
  ghost predicate Above(cmp: Compare, v: seq<Element>, piv: Element, l: int, h: int) {
    0 <= l && h <= |v| && forall x :: l <= x < h ==> cmp(v[x], piv) > 0
  }
  ghost predicate Equal(cmp: Compare, v: seq<Element>, piv: Element, l: int, h: int) {
    0 <= l && h <= |v| && forall x :: l <= x < h ==> cmp(v[x], piv) == 0
  }
  ghost predicate AtMost(cmp: Compare, v: seq<Element>, piv: Element, l: int, h: int) {
    0 <= l && h <= |v| && forall x :: l <= x < h ==> cmp(v[x], piv) <= 0
  }
  ghost predicate AtLeast(cmp: Compare, v: seq<Element>, piv: Element, l: int, h: int) {
    0 <= l && h <= |v| && forall x :: l <= x < h ==> cmp(v[x], piv) >= 0
  }

  /** Equal to the pivot up to p, below it up to i, unknown, above it from j, equal from q, and the pivot at r. */
  ghost predicate Parted(cmp: Compare, v: seq<Element>, piv: Element, l: int, r: int, i: int, j: int, p: int, q: int) {
    && 0 <= l <= p + 1 <= i + 1 <= j <= q <= r < |v| && l < j && v[r] == piv
    && Equal(cmp, v, piv, l, p + 1) && Below(cmp, v, piv, p + 1, i + 1)
    && Above(cmp, v, piv, j, q) && Equal(cmp, v, piv, q, r)
  }

  method ScanUp(lay: Layout, mem: array<byte>, cmp: Compare, i0: int, r: nat) returns (i: int)
    requires lay.Fits(mem[..]) && r < lay.n && -1 <= i0 < r
    ensures var v := View(lay, mem[..]);
      && i0 < i <= r && Below(cmp, v, v[r], i0 + 1, i)
      && (i < r ==> cmp(v[i], v[r]) >= 0)
  {
    i := i0 + 1;
    while i != r && cmp(ElementAt(lay, mem[..], i), ElementAt(lay, mem[..], r)) < 0
      invariant i0 < i <= r && Below(cmp, View(lay, mem[..]), View(lay, mem[..])[r], i0 + 1, i)
      decreases r - i
    {
      i := i + 1;
    }
  }

  /** Never goes below l. */
  method ScanDown(lay: Layout, mem: array<byte>, cmp: Compare, j0: int, l: nat, r: nat) returns (j: int)
    requires lay.Fits(mem[..]) && l < j0 <= r < lay.n && Preorder(cmp)
    ensures var v := View(lay, mem[..]);
      && l <= j < j0 && Above(cmp, v, v[r], j + 1, j0)
      && (j == l || cmp(v[r], v[j]) >= 0)
  {
    j := j0 - 1;
    while cmp(ElementAt(lay, mem[..], r), ElementAt(lay, mem[..], j)) < 0
      invariant l <= j < j0 && Above(cmp, View(lay, mem[..]), View(lay, mem[..])[r], j + 1, j0)
      decreases j
    {
      if j == l { break; }
      j := j - 1;
    }
  }

  // ---------------------------------------------------------------- partition

  /**
   * After the main exchange: as Parted, but the element at i is only known to be at most the pivot, and
   * that at j at least.
   */
  ghost predicate Exchanged(cmp: Compare, v: seq<Element>, piv: Element, l: int, r: int, i: int, j: int, p: int,
      q: int) {
    && 0 <= l <= p + 1 <= i < j < q <= r < |v| && v[r] == piv
    && Equal(cmp, v, piv, l, p + 1) && Below(cmp, v, piv, p + 1, i) && cmp(v[i], piv) <= 0
    && cmp(v[j], piv) >= 0 && Above(cmp, v, piv, j + 1, q) && Equal(cmp, v, piv, q, r)
  }

  /** The same once the element at i has been gathered if it is equal. */
  ghost predicate LeftGathered(cmp: Compare, v: seq<Element>, piv: Element, l: int, r: int, i: int, j: int, p: int,
      q: int) {
    && 0 <= l <= p + 1 <= i + 1 <= j < q <= r < |v| && l <= i && v[r] == piv
    && Equal(cmp, v, piv, l, p + 1) && Below(cmp, v, piv, p + 1, i + 1)
    && cmp(v[j], piv) >= 0 && Above(cmp, v, piv, j + 1, q) && Equal(cmp, v, piv, q, r)
  }

  lemma MainExchange(cmp: Compare, v: seq<Element>, l: int, r: int, i0: int, j0: int, p: int, q: int, i: int, j: int)
    requires Preorder(cmp) && 0 <= l < r < |v| && Parted(cmp, v, v[r], l, r, i0, j0, p, q)
    requires i0 < i < j < j0 && Below(cmp, v, v[r], i0 + 1, i) && cmp(v[i], v[r]) >= 0
    requires Above(cmp, v, v[r], j + 1, j0) && cmp(v[r], v[j]) >= 0
    ensures Exchanged(cmp, Swapped(v, i, j), v[r], l, r, i, j, p, q)
  {
  }

  lemma GatherAtI(cmp: Compare, v: seq<Element>, piv: Element, l: int, r: int, i: int, j: int, p: int, q: int)
    requires Exchanged(cmp, v, piv, l, r, i, j, p, q)
    ensures if cmp(v[i], piv) == 0 then LeftGathered(cmp, Swapped(v, p + 1, i), piv, l, r, i, j, p + 1, q)
            else LeftGathered(cmp, v, piv, l, r, i, j, p, q)
  {
  }

  lemma GatherAtJ(cmp: Compare, v: seq<Element>, piv: Element, l: int, r: int, i: int, j: int, p: int, q: int)
    requires Preorder(cmp) && LeftGathered(cmp, v, piv, l, r, i, j, p, q)
    ensures if cmp(piv, v[j]) == 0 then Parted(cmp, Swapped(v, j, q - 1), piv, l, r, i, j, p, q - 1)
            else Parted(cmp, v, piv, l, r, i, j, p, q)
  {
  }

  /** What the partition leaves: up to i everything is below or gathered, from i up to q nothing is below. */
  ghost predicate Split(cmp: Compare, v: seq<Element>, piv: Element, l: int, r: int, i: int, p: int, q: int) {
    && 0 <= l <= p + 1 <= i <= q <= r < |v| && v[r] == piv
    && Equal(cmp, v, piv, l, p + 1) && Below(cmp, v, piv, p + 1, i) && AtLeast(cmp, v, piv, i, q)
      && Equal(cmp, v, piv, q, r)
  }

  lemma StopsByQ(cmp: Compare, v: seq<Element>, piv: Element, i0: int, i: int, q: int, r: int)
    requires Below(cmp, v, piv, i0 + 1, i) && Equal(cmp, v, piv, q, r) && i0 < q <= r && i <= r
    ensures i <= q
  {
    assert q < r ==> cmp(v[q], piv) == 0;
  }

  lemma CrossedIsSplit(cmp: Compare, v: seq<Element>, l: int, r: int, i0: int, j0: int, p: int, q: int, i: int, j: int)
    requires 0 <= l < r < |v| && Parted(cmp, v, v[r], l, r, i0, j0, p, q)
    requires i0 < i <= r && Below(cmp, v, v[r], i0 + 1, i) && (i < r ==> cmp(v[i], v[r]) >= 0)
    requires l <= j < j0 && Above(cmp, v, v[r], j + 1, j0) && i >= j
    ensures Split(cmp, v, v[r], l, r, i, p, q)
  {
    StopsByQ(cmp, v, v[r], i0, i, q, r);
  }

  /** The rest of one round: the exchange of elements i and j, then of each with a gathered zone if it is equal. */
  method ExchangeOnce(lay: Layout, mem: array<byte>, cmp: Compare, l: nat, r: nat, i: nat, j: nat, p0: int, q0: int)
    returns (p: int, q: int)
    requires lay.Fits(mem[..]) && l < r < lay.n && l <= i < j < r + 1 && Preorder(cmp)
    requires p0 + 1 <= i && j < q0 <= r && l <= p0 + 1
    requires Exchanged(cmp, Swapped(View(lay, mem[..]), i, j), View(lay, mem[..])[r], l, r, i, j, p0, q0)
    modifies mem
    ensures Permuted(lay, old(mem[..]), mem[..], l, r + 1)
    ensures Parted(cmp, View(lay, mem[..]), View(lay, old(mem[..]))[r], l, r, i, j, p, q)
  {
    hide Preorder, View, ElementAt, Swapped, SameAround, Rearranged, Below, Above, Equal;
    ghost var was, piv := mem[..], View(lay, mem[..])[r];
    p, q := p0, q0;
    ExchWithin(lay, mem, i, j, l, r + 1);
    GatherAtI(cmp, View(lay, mem[..]), piv, l, r, i, j, p, q);
    if cmp(ElementAt(lay, mem[..], i), ElementAt(lay, mem[..], r)) == 0 {
      p := p + 1;
      ghost var was1 := mem[..];
      ExchWithin(lay, mem, p, i, l, r + 1);
      PermutedTwice(lay, was, was1, mem[..], l, r + 1);
    }
    GatherAtJ(cmp, View(lay, mem[..]), piv, l, r, i, j, p, q);
    if cmp(ElementAt(lay, mem[..], r), ElementAt(lay, mem[..], j)) == 0 {
      q := q - 1;
      ghost var was2 := mem[..];
      ExchWithin(lay, mem, j, q, l, r + 1);
      PermutedTwice(lay, was, was2, mem[..], l, r + 1);
    }
  }

  /** The main loop of the partition on the elements from l to r, with the pivot at r. */
  method Partition(lay: Layout, mem: array<byte>, cmp: Compare, l: nat, r: nat) returns (i: int, p: int, q: int)
    requires lay.Fits(mem[..]) && l < r < lay.n && Preorder(cmp)
    modifies mem
    ensures Permuted(lay, old(mem[..]), mem[..], l, r + 1)
    ensures Split(cmp, View(lay, mem[..]), View(lay, old(mem[..]))[r], l, r, i, p, q)
  {
    hide Preorder, View, ElementAt, Swapped, SameAround, Layout.Fits, Rearranged, Below, Above, Equal, Exchanged, Split;
    ghost var was := mem[..];
    ghost var piv := View(lay, was)[r];
    i := l - 1;
    p, q := l - 1, r;
    var j: int := r;
    PermutedNone(lay, was, l, r + 1);
    PartedAtFirst(cmp, View(lay, was), l, r);
    while true
      invariant Permuted(lay, was, mem[..], l, r + 1)
      invariant Parted(cmp, View(lay, mem[..]), piv, l, r, i, j, p, q)
      decreases j - i
    {
      ghost var now, i0, j0 := mem[..], i, j;
      i := ScanUp(lay, mem, cmp, i, r);
      j := ScanDown(lay, mem, cmp, j, l, r);
      if i >= j {
        CrossedIsSplit(cmp, View(lay, now), l, r, i0, j0, p, q, i, j);
        break;
      }
      MainExchange(cmp, View(lay, now), l, r, i0, j0, p, q, i, j);
      p, q := ExchangeOnce(lay, mem, cmp, l, r, i, j, p, q);
      PermutedTwice(lay, was, now, mem[..], l, r + 1);
    }
  }

  lemma PartedAtFirst(cmp: Compare, v: seq<Element>, l: nat, r: nat)
    requires l < r < |v|
    ensures Parted(cmp, v, v[r], l, r, l - 1, r, l - 1, r)
  {
  }

  // ---------------------------------------------------------------- gathering the equal elements

  /** With the elements equal to the pivot at both ends, and i the place where the pivot itself has been put. */
  ghost predicate Centred(cmp: Compare, v: seq<Element>, piv: Element, l: int, r: int, i: int, p: int, q: int) {
    && 0 <= l <= p + 1 <= i <= q <= r < |v| && cmp(v[i], piv) == 0
    && Equal(cmp, v, piv, l, p + 1) && AtMost(cmp, v, piv, l, i)
    && Equal(cmp, v, piv, Max(q, i + 1), r) && AtLeast(cmp, v, piv, i + 1, r + 1)
  }

  function Max(a: int, b: int): int { if a < b then b else a }

  lemma Centre(cmp: Compare, v: seq<Element>, piv: Element, l: int, r: int, i: int, p: int, q: int)
    requires Preorder(cmp) && Split(cmp, v, piv, l, r, i, p, q)
    ensures Centred(cmp, Swapped(v, i, r), piv, l, r, i, p, q)
  {
  }

  /**
   * On the left, after k - l swaps of k with its mirror image m - k; where the two zones overlap the
   * swapped elements are equal ones.
   */
  ghost predicate Gathering(cmp: Compare, v: seq<Element>, piv: Element, l: int, i: int, p: int, k: int) {
    var m := l + i - 1;
    && 0 <= l <= k <= i <= |v| && p < i && AtMost(cmp, v, piv, l, i)
    && Equal(cmp, v, piv, m - k + 1, i) && Equal(cmp, v, piv, k, p + 1)
    && forall x :: l <= x < k && m - x <= p ==> cmp(v[x], piv) == 0
  }

  lemma GatheringStep(cmp: Compare, v: seq<Element>, piv: Element, l: int, i: int, p: int, k: int)
    requires k < p && Gathering(cmp, v, piv, l, i, p, k)
    ensures Gathering(cmp, Swapped(v, k, l + i - 1 - k), piv, l, i, p, k + 1)
  {
  }

  /** The mirror image: q is the first gathered place on the right, and the element at r stays where it is. */
  ghost predicate GatheringR(cmp: Compare, v: seq<Element>, piv: Element, l: int, r: int, q: int, k: int) {
    var m := l + r - 1;
    && 0 <= l && l - 1 <= k <= r < |v| && l <= q && k >= q - 1 && AtLeast(cmp, v, piv, l, r + 1)
    && Equal(cmp, v, piv, l, m - k) && Equal(cmp, v, piv, q, k + 1)
    && forall x :: k < x < r && m - x >= q ==> cmp(v[x], piv) == 0
  }

  lemma GatheringRStep(cmp: Compare, v: seq<Element>, piv: Element, l: int, r: int, q: int, k: int)
    requires q <= k < r && GatheringR(cmp, v, piv, l, r, q, k)
    ensures GatheringR(cmp, Swapped(v, l + r - 1 - k, k), piv, l, r, q, k - 1)
  {
  }

  /**
   * Swap the equal elements at the left end next to the pivot's place. The last of them is left behind, and
   * where they outnumber the others the two zones overlap and some are swapped twice.
   */
  method GatherLeft(lay: Layout, mem: array<byte>, cmp: Compare, ghost piv: Element, l: nat, i: nat,
      p: int) returns (j: int)
    requires lay.Fits(mem[..]) && l <= p + 1 <= i < lay.n
    requires Equal(cmp, View(lay, mem[..]), piv, l, p + 1) && AtMost(cmp, View(lay, mem[..]), piv, l, i)
    modifies mem
    ensures Permuted(lay, old(mem[..]), mem[..], l, i)
    ensures l - 1 <= j < i && AtMost(cmp, View(lay, mem[..]), piv, l, i)
      && Equal(cmp, View(lay, mem[..]), piv, j + 1, i)
  {
    hide View, Swapped, SameAround, Layout.Fits, Rearranged;
    ghost var was := mem[..];
    var k: int := l;
    j := i - 1;
    PermutedNone(lay, was, l, i);
    while k < p
      invariant Permuted(lay, was, mem[..], l, i)
      invariant l <= k && (k <= p || k == l) && j == l + i - 1 - k
      invariant Gathering(cmp, View(lay, mem[..]), piv, l, i, p, k)
      decreases p - k
    {
      ghost var now := mem[..];
      GatheringStep(cmp, View(lay, now), piv, l, i, p, k);
      ExchWithin(lay, mem, k, j, l, i);
      PermutedTwice(lay, was, now, mem[..], l, i);
      k, j := k + 1, j - 1;
    }
  }

  /** The same on the right. */
  method GatherRight(lay: Layout, mem: array<byte>, cmp: Compare, ghost piv: Element, l: nat, q: nat,
      r: nat) returns (i: int)
    requires lay.Fits(mem[..]) && l <= q + 1 <= r + 1 <= lay.n
    requires Equal(cmp, View(lay, mem[..]), piv, Max(q, l), r) && AtLeast(cmp, View(lay, mem[..]), piv, l, r + 1)
    modifies mem
    ensures Permuted(lay, old(mem[..]), mem[..], l, r + 1)
    ensures l <= i <= r + 1 && AtLeast(cmp, View(lay, mem[..]), piv, l, r + 1)
      && Equal(cmp, View(lay, mem[..]), piv, l, i)
  {
    hide View, Swapped, SameAround, Layout.Fits, Rearranged;
    ghost var was := mem[..];
    var k: int := r - 1;
    i := l;
    PermutedNone(lay, was, l, r + 1);
    while k > q
      invariant Permuted(lay, was, mem[..], l, r + 1)
      invariant k < r && (k >= q || k == r - 1) && i == l + r - 1 - k
      invariant AtLeast(cmp, View(lay, mem[..]), piv, l, r + 1)
      invariant k >= q ==> GatheringR(cmp, View(lay, mem[..]), piv, l, r, Max(q, l), k)
      decreases k
    {
      ghost var now := mem[..];
      GatheringRStep(cmp, View(lay, now), piv, l, r, Max(q, l), k);
      ExchWithin(lay, mem, i, k, l, r + 1);
      PermutedTwice(lay, was, now, mem[..], l, r + 1);
      k, i := k - 1, i + 1;
    }
  }

  // ---------------------------------------------------------------- the sort

  ghost predicate Sorted(cmp: Compare, v: seq<Element>, l: int, h: int) {
    0 <= l && h <= |v| && forall x, y :: l <= x < y < h ==> cmp(v[x], v[y]) <= 0
  }

  /**
   * The pivot's equals from j + 1 up to i, nothing above the pivot on their left and nothing below it on
   * their right.
   */
  ghost predicate ThreeWay(cmp: Compare, v: seq<Element>, piv: Element, l: int, r: int, j: int, i: int) {
    && 0 <= l <= j + 1 <= i <= r + 1 <= |v|
    && AtMost(cmp, v, piv, l, j + 1) && Equal(cmp, v, piv, j + 1, i) && AtLeast(cmp, v, piv, i, r + 1)
  }

  lemma RearrangedAtMost(cmp: Compare, v: seq<Element>, v': seq<Element>, piv: Element, l: int, h: int)
    requires Rearranged(v, v', l, h) && AtMost(cmp, v, piv, l, h)
    ensures AtMost(cmp, v', piv, l, h)
  {
    RearrangedKeeps(v, v', l, h, x => cmp(x, piv) <= 0);
  }

  lemma RearrangedAtLeast(cmp: Compare, v: seq<Element>, v': seq<Element>, piv: Element, l: int, h: int)
    requires Rearranged(v, v', l, h) && AtLeast(cmp, v, piv, l, h)
    ensures AtLeast(cmp, v', piv, l, h)
  {
    RearrangedKeeps(v, v', l, h, x => cmp(x, piv) >= 0);
  }

  /** Gathering on the left leaves the right alone. */
  lemma LeftGatheredIsThreeWay(cmp: Compare, v: seq<Element>, v': seq<Element>, piv: Element, l: int, r: int, i: int,
      p: int, q: int, j: int)
    requires Centred(cmp, v, piv, l, r, i, p, q) && Rearranged(v, v', l, i)
    requires l - 1 <= j < i && AtMost(cmp, v', piv, l, i) && Equal(cmp, v', piv, j + 1, i)
    ensures AtMost(cmp, v', piv, l, j + 1) && Equal(cmp, v', piv, j + 1, i + 1)
    ensures Equal(cmp, v', piv, Max(q, i + 1), r) && AtLeast(cmp, v', piv, i + 1, r + 1)
  {
  }

  lemma RightGatheredIsThreeWay(cmp: Compare, v: seq<Element>, v': seq<Element>, piv: Element, l: int, r: int, j: int,
      i0: int, i: int)
    requires 0 <= l <= j + 1 <= i0 <= i <= r + 1 <= |v|
    requires AtMost(cmp, v, piv, l, j + 1) && Equal(cmp, v, piv, j + 1, i0) && Rearranged(v, v', i0, r + 1)
    requires AtLeast(cmp, v', piv, i0, r + 1) && Equal(cmp, v', piv, i0, i)
    ensures ThreeWay(cmp, v', piv, l, r, j, i)
  {
  }

  /** The left part sorted. */
  lemma LeftSorted(cmp: Compare, v: seq<Element>, v': seq<Element>, piv: Element, l: int, r: int, j: int, i: int)
    requires ThreeWay(cmp, v, piv, l, r, j, i) && Rearranged(v, v', l, j + 1)
    ensures ThreeWay(cmp, v', piv, l, r, j, i)
  {
    RearrangedAtMost(cmp, v, v', piv, l, j + 1);
    forall x | j + 1 <= x < |v| ensures v'[x] == v[x] { RearrangedOutside(v, v', l, j + 1, x); }
  }

  /** The right part sorted. */
  lemma RightSorted(cmp: Compare, v: seq<Element>, v': seq<Element>, piv: Element, l: int, r: int, j: int, i: int)
    requires ThreeWay(cmp, v, piv, l, r, j, i) && Rearranged(v, v', i, r + 1) && Sorted(cmp, v, l, j + 1)
    ensures ThreeWay(cmp, v', piv, l, r, j, i) && Sorted(cmp, v', l, j + 1)
  {
    RearrangedAtLeast(cmp, v, v', piv, i, r + 1);
    forall x | 0 <= x < i ensures v'[x] == v[x] { RearrangedOutside(v, v', i, r + 1, x); }
  }

  lemma BothSorted(cmp: Compare, v: seq<Element>, piv: Element, l: int, r: int, j: int, i: int)
    requires Preorder(cmp) && ThreeWay(cmp, v, piv, l, r, j, i)
    requires Sorted(cmp, v, l, j + 1) && Sorted(cmp, v, i, r + 1)
    ensures Sorted(cmp, v, l, r + 1)
  {
  }

  /** The three-way split of the range from l to r, left by everything quicksort does before its two recursive calls. */
  method SplitInThree(lay: Layout, mem: array<byte>, cmp: Compare, l: nat, r: nat) returns (j: int, i: int,
      ghost piv: Element)
    requires lay.Fits(mem[..]) && l < r < lay.n && Preorder(cmp)
    modifies mem
    ensures Permuted(lay, old(mem[..]), mem[..], l, r + 1)
    ensures ThreeWay(cmp, View(lay, mem[..]), piv, l, r, j, i) && j + 1 < i
  {
    hide Preorder, View, ElementAt, Swapped, SameAround, Rearranged, Below, Above, Equal, AtMost, AtLeast, Layout.Fits;
    ghost var was := mem[..];
    ExchWithin(lay, mem, l + (r - l) / 2, r, l, r + 1);
    ghost var b1 := mem[..];
    piv := View(lay, b1)[r];
    var p, q;
    i, p, q := Partition(lay, mem, cmp, l, r);
    ghost var b2 := mem[..];
    Centre(cmp, View(lay, b2), piv, l, r, i, p, q);
    ExchWithin(lay, mem, i, r, l, r + 1);
    ghost var b3 := mem[..];
    j := GatherLeft(lay, mem, cmp, piv, l, i, p);
    ghost var b4 := mem[..];
    LeftGatheredIsThreeWay(cmp, View(lay, b3), View(lay, b4), piv, l, r, i, p, q, j);
    ghost var i0 := i + 1;
    i := GatherRight(lay, mem, cmp, piv, i + 1, q, r);
    RightGatheredIsThreeWay(cmp, View(lay, b4), View(lay, mem[..]), piv, l, r, j, i0, i);
    FivePermuted(lay, was, b1, b2, b3, b4, mem[..], l, r, i0);
  }

  lemma FivePermuted(lay: Layout, b0: seq<byte>, b1: seq<byte>, b2: seq<byte>, b3: seq<byte>, b4: seq<byte>,
      b5: seq<byte>, l: int, r: int, i0: int)
    requires 0 <= l < i0 <= r + 1 <= lay.n
    requires Permuted(lay, b0, b1, l, r + 1) && Permuted(lay, b1, b2, l, r + 1) && Permuted(lay, b2, b3, l, r + 1)
    requires Permuted(lay, b3, b4, l, i0 - 1) && Permuted(lay, b4, b5, i0, r + 1)
    ensures Permuted(lay, b0, b5, l, r + 1)
  {
    hide Permuted;
    PermutedTwice(lay, b0, b1, b2, l, r + 1);
    PermutedTwice(lay, b0, b2, b3, l, r + 1);
    PermutedWider(lay, b3, b4, l, i0 - 1, l, r + 1);
    PermutedTwice(lay, b0, b3, b4, l, r + 1);
    PermutedWider(lay, b4, b5, i0, r + 1, l, r + 1);
    PermutedTwice(lay, b0, b4, b5, l, r + 1);
  }

  /** Sort the elements from l to r. */
  method Quicksort(lay: Layout, mem: array<byte>, cmp: Compare, l: nat, r: int)
    requires lay.Fits(mem[..]) && r < lay.n && l <= r + 1 && Preorder(cmp)
    modifies mem
    ensures Permuted(lay, old(mem[..]), mem[..], l, r + 1)
    ensures Sorted(cmp, View(lay, mem[..]), l, r + 1)
    decreases r - l
  {
    hide Preorder, View, ElementAt, Swapped, SameAround, Rearranged, Below, Above, Equal, AtMost, AtLeast, Layout.Fits;
    ghost var was := mem[..];
    if r <= l {
      PermutedNone(lay, was, l, r + 1);
      return;
    }
    ghost var piv;
    var j, i;
    j, i, piv := SplitInThree(lay, mem, cmp, l, r);
    ghost var b1 := mem[..];
    Quicksort(lay, mem, cmp, l, j);
    ghost var b2 := mem[..];
    LeftSorted(cmp, View(lay, b1), View(lay, b2), piv, l, r, j, i);
    PermutedWider(lay, b1, b2, l, j + 1, l, r + 1);
    PermutedTwice(lay, was, b1, b2, l, r + 1);
    Quicksort(lay, mem, cmp, i, r);
    RightSorted(cmp, View(lay, b2), View(lay, mem[..]), piv, l, r, j, i);
    PermutedWider(lay, b2, mem[..], i, r + 1, l, r + 1);
    PermutedTwice(lay, was, b2, mem[..], l, r + 1);
    BothSorted(cmp, View(lay, mem[..]), piv, l, r, j, i);
  }

  /** Half the size type's maximum, the largest value its signed counterpart holds. */
  const SSIZE_MAX := 0x7FFF_FFFF

  /** Sorts, except that counts and sizes from SSIZE_MAX up are silently left alone. */
  method Qsort(mem: array<byte>, base: nat, nmemb: nat, size: nat, cmp: Compare)
    requires base + nmemb * size <= mem.Length && Preorder(cmp)
    modifies mem
    ensures var lay := Layout(base, size, nmemb);
      if nmemb >= SSIZE_MAX || size >= SSIZE_MAX then mem[..] == old(mem[..])
      else Permuted(lay, old(mem[..]), mem[..], 0, nmemb) && Sorted(cmp, View(lay, mem[..]), 0, nmemb)
  {
    ghost var lay := Layout(base, size, nmemb);
    if nmemb >= SSIZE_MAX || size >= SSIZE_MAX {
      return;
    }
    PermutedNone(lay, mem[..], 0, nmemb);
    if nmemb > 1 {
      Quicksort(Layout(base, size, nmemb), mem, cmp, 0, nmemb - 1);
    }
  }
}
