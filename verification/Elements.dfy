/** Elements of a fixed size laid out in bytes, and the order a comparison function gives them. */
module Elements {
  import opened Words

  type Element = seq<byte>
  type Compare = (Element, Element) -> int

  /** n elements of size bytes from base. */
  datatype Layout = Layout(base: nat, size: nat, n: nat) {
    function Offset(i: nat): nat { base + i * size }
    predicate Fits(bytes: seq<byte>) { Offset(n) <= |bytes| }
  }

  lemma Multiples(i: nat, j: nat, size: nat)
    requires i <= j
    ensures i * size <= j * size
    ensures i < j ==> i * size + size <= j * size
  {
    var d := j - i;
    assert j * size == (i + d) * size == i * size + d * size;
    assert d * size >= 0;
    if d > 0 { assert d * size == size + (d - 1) * size && (d - 1) * size >= 0; }
  }

  lemma OffsetStep(lay: Layout, i: nat, j: nat)
    requires i <= j
    ensures lay.base <= lay.Offset(i) <= lay.Offset(j)
    ensures i < j ==> lay.Offset(i) + lay.size <= lay.Offset(j)
  {
    Multiples(0, i, lay.size);
    Multiples(i, j, lay.size);
  }

  function ElementAt(lay: Layout, bytes: seq<byte>, i: nat): (e: Element)
    requires lay.Fits(bytes) && i < lay.n
    ensures |e| == lay.size
  {
    OffsetStep(lay, i, lay.n);
    bytes[lay.Offset(i)..lay.Offset(i) + lay.size]
  }

  /** The elements in order. */
  function View(lay: Layout, bytes: seq<byte>): (v: seq<Element>)
    requires lay.Fits(bytes)
    ensures |v| == lay.n
    ensures forall i {:trigger v[i]} :: 0 <= i < lay.n ==> v[i] == ElementAt(lay, bytes, i)
  {
    seq(lay.n, i requires 0 <= i < lay.n => ElementAt(lay, bytes, i))
  }

  /** The bytes before and after the elements are the same. */
  ghost predicate SameAround(lay: Layout, old_: seq<byte>, new_: seq<byte>) {
    && |old_| == |new_| && lay.Fits(old_) && lay.base <= lay.Offset(lay.n)
    && old_[..lay.base] == new_[..lay.base] && old_[lay.Offset(lay.n)..] == new_[lay.Offset(lay.n)..]
  }

  /** A total preorder: signs are opposite when the arguments are swapped, and being at most is transitive. */
  ghost predicate Preorder(cmp: Compare) {
    && (forall x, y :: cmp(x, y) < 0 <==> cmp(y, x) > 0)
    && (forall x, y, z :: cmp(x, y) <= 0 && cmp(y, z) <= 0 ==> cmp(x, z) <= 0)
  }

  function Swapped<T>(v: seq<T>, a: nat, b: nat): (r: seq<T>)
    requires a < |v| && b < |v|
    ensures |r| == |v|
  {
    v[a := v[b]][b := v[a]]
  }

  /** The byte that ends up at k when the places of size bytes at x and y are exchanged. */
  function Source(x: nat, y: nat, size: nat, k: nat): int {
    if x <= k < x + size then k - x + y else if y <= k < y + size then k - y + x else k
  }

  ghost predicate BytesExchanged(old_: seq<byte>, new_: seq<byte>, x: nat, y: nat, size: nat) {
    && |old_| == |new_| && x + size <= |old_| && y + size <= |old_|
    && forall k: nat {:trigger new_[k]} ::
      k < |new_| ==> 0 <= Source(x, y, size, k) < |old_| && new_[k] == old_[Source(x, y, size, k)]
  }

  method ExchBytes(mem: array<byte>, x0: nat, y0: nat, size0: nat)
    requires x0 + size0 <= mem.Length && y0 + size0 <= mem.Length
    requires x0 == y0 || x0 + size0 <= y0 || y0 + size0 <= x0
    modifies mem
    ensures BytesExchanged(old(mem[..]), mem[..], x0, y0, size0)
  {
    var x, y, size := x0, y0, size0;
    while size > 0
      invariant 0 <= size <= size0 && x == x0 + (size0 - size) && y == y0 + (size0 - size)
      invariant forall k: nat {:trigger mem[k]} ::
        k < mem.Length ==> mem[k] == old(mem[..])[Source(x0, y0, size0 - size, k)]
    {
      var z := mem[x];
      mem[x] := mem[y];
      mem[y] := z;
      size, x, y := size - 1, x + 1, y + 1;
    }
    forall k: nat | k < mem.Length ensures mem[..][k] == old(mem[..])[Source(x0, y0, size0, k)] {
      assert mem[..][k] == mem[k];
    }
  }

  lemma Apart(lay: Layout, i: nat, j: nat)
    requires i != j
    ensures lay.Offset(i) + lay.size <= lay.Offset(j) || lay.Offset(j) + lay.size <= lay.Offset(i)
  {
    if i < j { OffsetStep(lay, i, j); } else { OffsetStep(lay, j, i); }
  }

  lemma ExchangedElement(lay: Layout, old_: seq<byte>, new_: seq<byte>, a: nat, b: nat, i: nat)
    requires lay.Fits(old_) && a < lay.n && b < lay.n && i < lay.n
    requires BytesExchanged(old_, new_, lay.Offset(a), lay.Offset(b), lay.size)
    ensures ElementAt(lay, new_, i) == ElementAt(lay, old_, if i == b then a else if i == a then b else i)
  {
    OffsetStep(lay, i, lay.n);
    if i != a { Apart(lay, i, a); }
    if i != b { Apart(lay, i, b); }
    if a != b { Apart(lay, a, b); }
    var from := if i == b then a else if i == a then b else i;
    OffsetStep(lay, from, lay.n);
    var o, o' := lay.Offset(i), lay.Offset(from);
    var e, e' := ElementAt(lay, new_, i), ElementAt(lay, old_, from);
    forall t | 0 <= t < lay.size ensures e[t] == e'[t] {
      assert e[t] == new_[o + t] && e'[t] == old_[o' + t];
    }
  }

  lemma ExchangedView(lay: Layout, old_: seq<byte>, new_: seq<byte>, a: nat, b: nat)
    requires lay.Fits(old_) && a < lay.n && b < lay.n
    requires BytesExchanged(old_, new_, lay.Offset(a), lay.Offset(b), lay.size)
    ensures View(lay, new_) == Swapped(View(lay, old_), a, b)
  {
    forall i: nat | i < lay.n ensures View(lay, new_)[i] == Swapped(View(lay, old_), a, b)[i] {
      ExchangedElement(lay, old_, new_, a, b, i);
    }
  }

  lemma ExchangedAround(lay: Layout, old_: seq<byte>, new_: seq<byte>, a: nat, b: nat)
    requires lay.Fits(old_) && a < lay.n && b < lay.n
    requires BytesExchanged(old_, new_, lay.Offset(a), lay.Offset(b), lay.size)
    ensures SameAround(lay, old_, new_)
  {
    OffsetStep(lay, a, lay.n);
    OffsetStep(lay, b, lay.n);
    OffsetStep(lay, 0, lay.n);
  }

  /** Exchange two elements byte by byte. */
  method Exch(lay: Layout, mem: array<byte>, a: nat, b: nat)
    requires lay.Fits(mem[..]) && a < lay.n && b < lay.n
    modifies mem
    ensures lay.Fits(mem[..]) && View(lay, mem[..]) == Swapped(View(lay, old(mem[..])), a, b)
    ensures SameAround(lay, old(mem[..]), mem[..])
  {
    OffsetStep(lay, a, lay.n);
    OffsetStep(lay, b, lay.n);
    if a != b { Apart(lay, a, b); }
    ExchBytes(mem, lay.Offset(a), lay.Offset(b), lay.size);
    ExchangedView(lay, old(mem[..]), mem[..], a, b);
    ExchangedAround(lay, old(mem[..]), mem[..], a, b);
  }
}
