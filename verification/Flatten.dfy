/** Flattening the indices of a multi-dimensional array access: mixed-radix arithmetic of any
    rank, in 64-bit words that wrap around. */
module Flatten {
  import opened Collections

  // A pointee type: a scalar of some size, or an array.
  datatype Ty = Scalar(bytes: nat) | Array(count: nat, elem: Ty)

  const WORD := 0x1_0000_0000_0000_0000

  function Wrap(x: int): (r: int)
    ensures 0 <= r < WORD
  {
    x % WORD
  }

  function SizeOf(t: Ty): nat { if t.Scalar? then t.bytes else t.count * SizeOf(t.elem) }

  function Dims(t: Ty): seq<nat> { if t.Scalar? then [] else [t.count] + Dims(t.elem) }

  function Basic(t: Ty): Ty { if t.Scalar? then t else Basic(t.elem) }

  // Every dimension is a 64-bit count.
  predicate Countable(t: Ty) { t.Scalar? || (t.count < WORD && Countable(t.elem)) }

  // ---------- getelementptr ----------

  // The offset of an element of a t by one index per dimension.
  function Within(t: Ty, idx: seq<int>): int
    requires |idx| == |Dims(t)|
    decreases t
  {
    if t.Scalar? then 0 else idx[0] * SizeOf(t.elem) + Within(t.elem, idx[1..])
  }

  // The address computed from a pointer to a t: the first index steps over whole t's.
  function Address(base: int, t: Ty, lead: int, idx: seq<int>): int
    requires |idx| == |Dims(t)|
  {
    Wrap(base + lead * SizeOf(t) + Within(t, idx))
  }

  // ---------- row-major order ----------

  function Product(sizes: seq<nat>): nat { if sizes == [] then 1 else sizes[0] * Product(sizes[1..]) }

  function Flat(sizes: seq<nat>, idx: seq<int>): int
    requires |idx| == |sizes|
  {
    if sizes == [] then 0 else idx[0] * Product(sizes[1..]) + Flat(sizes[1..], idx[1..])
  }

  lemma {:induction false} SizeIsProduct(t: Ty)
    ensures SizeOf(t) == Product(Dims(t)) * SizeOf(Basic(t))
  {
    if t.Array? {
      SizeIsProduct(t.elem);
      assert Dims(t)[1..] == Dims(t.elem);
      Associate(t.count, Product(Dims(t.elem)), SizeOf(Basic(t)));
    }
  }

  lemma Associate(a: int, b: int, c: int)
    ensures a * (b * c) == (a * b) * c
  {
  }

  lemma Distribute(a: int, b: int, c: int)
    ensures (a + b) * c == a * c + b * c
  {
  }

  // The nested offset is the row-major position times the size of a scalar.
  lemma {:induction false} WithinIsFlat(t: Ty, idx: seq<int>)
    requires |idx| == |Dims(t)|
    ensures Within(t, idx) == Flat(Dims(t), idx) * SizeOf(Basic(t))
    decreases t
  {
    if t.Array? {
      assert Dims(t)[1..] == Dims(t.elem);
      WithinIsFlat(t.elem, idx[1..]);
      SizeIsProduct(t.elem);
      Associate(idx[0], Product(Dims(t.elem)), SizeOf(Basic(t)));
      Distribute(idx[0] * Product(Dims(t.elem)), Flat(Dims(t.elem), idx[1..]), SizeOf(Basic(t)));
    }
  }

  // ---------- wrapping ----------

  lemma WrapMultiple(x: int, k: int)
    ensures Wrap(x + k * WORD) == Wrap(x)
  {
  }

  lemma WrapAdd(a: int, b: int)
    ensures Wrap(Wrap(a) + b) == Wrap(a + b) && Wrap(a + Wrap(b)) == Wrap(a + b)
  {
    WrapMultiple(Wrap(a) + b, a / WORD);
    WrapMultiple(a + Wrap(b), b / WORD);
  }

  lemma WrapMul(a: int, b: int)
    ensures Wrap(Wrap(a) * b) == Wrap(a * b) && Wrap(a * Wrap(b)) == Wrap(a * b)
  {
    var (p, q) := (a / WORD, b / WORD);
    assert a == p * WORD + Wrap(a) && b == q * WORD + Wrap(b);
    calc {
      a * b;
      (p * WORD + Wrap(a)) * b;
      { Distribute(p * WORD, Wrap(a), b); }
      p * WORD * b + Wrap(a) * b;
      { assert p * WORD * b == (p * b) * WORD; }
      (p * b) * WORD + Wrap(a) * b;
    }
    WrapMultiple(Wrap(a) * b, p * b);
    calc {
      a * b;
      a * (q * WORD + Wrap(b));
      a * (q * WORD) + a * Wrap(b);
      { assert a * (q * WORD) == (a * q) * WORD; }
      (a * q) * WORD + a * Wrap(b);
    }
    WrapMultiple(a * Wrap(b), a * q);
  }

  // ---------- the code ----------

  method GetDecomposedArraySizes(t: Ty) returns (sizes: seq<nat>)
    ensures sizes == Dims(t)
  {
    sizes := [];
    var elemTy := t;
    while elemTy.Array?
      invariant sizes + Dims(elemTy) == Dims(t)
      decreases elemTy
    {
      sizes := sizes + [elemTy.count];
      elemTy := elemTy.elem;
    }
  }

  // The sum of the first n terms, from the innermost dimension out.
  function Partial(sizes: seq<nat>, idx: seq<int>, n: nat): int
    requires |idx| == |sizes| && n <= |sizes|
  {
    Flat(sizes[|sizes| - n..], idx[|sizes| - n..])
  }

  lemma PartialNone(sizes: seq<nat>, idx: seq<int>)
    requires |idx| == |sizes|
    ensures Partial(sizes, idx, 0) == 0
  {
  }

  lemma PartialMore(sizes: seq<nat>, idx: seq<int>, n: nat)
    requires |idx| == |sizes| && n < |sizes|
    ensures Partial(sizes, idx, n + 1) == idx[|sizes| - 1 - n] * Product(sizes[|sizes| - n..]) + Partial(sizes, idx, n)
  {
    var (s, i) := (sizes[|sizes| - (n + 1)..], idx[|sizes| - (n + 1)..]);
    assert s[1..] == sizes[|sizes| - n..] && i[1..] == idx[|sizes| - n..];
  }

  lemma ProductMore(sizes: seq<nat>, n: nat)
    requires n < |sizes|
    ensures Product(sizes[|sizes| - (n + 1)..]) == sizes[|sizes| - 1 - n] * Product(sizes[|sizes| - n..])
  {
    var s := sizes[|sizes| - (n + 1)..];
    assert s[1..] == sizes[|sizes| - n..];
  }

  lemma Commute(p: int, s: int)
    ensures p * s == s * p
  {
  }

  lemma ProductStep(sizes: seq<nat>, i: nat)
    requires 1 <= i < |sizes|
    ensures Wrap(Wrap(Product(sizes[|sizes| - (i - 1)..])) * sizes[|sizes| - i]) == Wrap(Product(sizes[|sizes| - i..]))
  {
    hide Wrap, Product;
    ProductMore(sizes, i - 1);
    var (p, s) := (Product(sizes[|sizes| - (i - 1)..]), sizes[|sizes| - i]);
    Commute(p, s);
    WrapMul(p, s);
  }

  lemma ProductNone(sizes: seq<nat>)
    ensures Wrap(Product(sizes[|sizes|..])) == 1
  {
  }

  method Products(sizes: seq<nat>, reversed: seq<nat>) returns (products: seq<int>)
    requires sizes != [] && reversed == Reverse(sizes)
    ensures |products| == |sizes|
    ensures forall i :: 0 <= i < |sizes| ==> products[i] == Wrap(Product(sizes[|sizes| - i..]))
  {
    hide Product, Wrap, Reverse;
    ProductNone(sizes);
    products := [1];
    var i := 1;
    while i < |sizes|
      invariant 1 <= i <= |sizes| && |products| == i
      invariant forall k :: 0 <= k < i ==> products[k] == Wrap(Product(sizes[|sizes| - k..]))
    {
      ProductStep(sizes, i);
      assert reversed[i - 1] == sizes[|sizes| - i];
      products := products + [Wrap(products[i - 1] * reversed[i - 1])];
      i := i + 1;
    }
  }

  // The new index, when the access has at least two dimensions; the first index is dropped.
  method FlattenMultiDimArrayIndices(t: Ty, indices0: seq<int>) returns (r: Option<int>)
    requires Countable(t) && |indices0| == 1 + |Dims(t)|
    ensures r.Some? <==> |Dims(t)| >= 2
    ensures r.Some? ==> r.value == Wrap(Flat(Dims(t), indices0[1..]))
  {
    hide Product, Wrap, Reverse, Flat;
    var sizes := GetDecomposedArraySizes(t);
    if |sizes| <= 1 {
      return None;
    }
    ghost var idx := indices0[1..];
    var reversed := Reverse(sizes);
    var products := Products(sizes, reversed);
    var indices := Reverse(indices0[1..]);
    var scaledIndices: seq<int> := [];
    var i := 0;
    while i < |sizes|
      invariant i <= |sizes| && |scaledIndices| == i
      invariant forall k :: 0 <= k < i ==> scaledIndices[k] == Wrap(idx[|sizes| - 1 - k] * Product(sizes[|sizes| - k..]))
    {
      WrapMul(indices[i], Product(sizes[|sizes| - i..]));
      scaledIndices := scaledIndices + [Wrap(indices[i] * products[i])];
      i := i + 1;
    }
    var summedIndices := [scaledIndices[0]];
    i := 1;
    PartialMore(sizes, idx, 0);
    PartialNone(sizes, idx);
    while i < |sizes|
      invariant 1 <= i <= |sizes| && |summedIndices| == i
      invariant summedIndices[i - 1] == Wrap(Partial(sizes, idx, i))
    {
      PartialMore(sizes, idx, i);
      SumWraps(Partial(sizes, idx, i), idx[|sizes| - 1 - i] * Product(sizes[|sizes| - i..]));
      summedIndices := summedIndices + [Wrap(summedIndices[i - 1] + scaledIndices[i])];
      i := i + 1;
    }
    assert sizes[|sizes| - |sizes|..] == sizes && idx[|sizes| - |sizes|..] == idx;
    r := Some(summedIndices[|sizes| - 1]);
  }

  lemma SumWraps(a: int, b: int)
    ensures Wrap(Wrap(a) + Wrap(b)) == Wrap(a + b)
  {
    WrapAdd(a, Wrap(b));
    WrapAdd(a, b);
  }

  // ---------- the address is the same ----------

  // Stepping over scalars by the new index reaches the address of the old access exactly when
  // the step by the first index wraps to nothing; in particular when that index is zero.
  lemma SameAddress(base: int, t: Ty, lead: int, idx: seq<int>)
    requires |idx| == |Dims(t)|
    ensures Wrap(base + Wrap(Flat(Dims(t), idx)) * SizeOf(Basic(t))) == Address(base, t, 0, idx)
    ensures Wrap(base + Wrap(Flat(Dims(t), idx)) * SizeOf(Basic(t))) == Address(base, t, lead, idx) <==> Wrap(lead * SizeOf(t)) == 0
  {
    hide Wrap, Flat, Within;
    var (flat, es) := (Flat(Dims(t), idx), SizeOf(Basic(t)));
    WithinIsFlat(t, idx);
    WrapMul(flat, es);
    WrapAdd(base, Wrap(flat) * es);
    WrapAdd(base, flat * es);
    assert Wrap(base + Wrap(flat) * es) == Wrap(base + Within(t, idx));
    var step := lead * SizeOf(t);
    WrapShift(base + Within(t, idx), step);
    assert base + step + Within(t, idx) == base + Within(t, idx) + step;
  }

  lemma WrapShift(x: int, y: int)
    ensures Wrap(x + y) == Wrap(x) <==> Wrap(y) == 0
  {
    var (p, q) := (x / WORD, (x + y) / WORD);
    assert x == p * WORD + Wrap(x) && x + y == q * WORD + Wrap(x + y);
    if Wrap(x + y) == Wrap(x) {
      assert y == (q - p) * WORD;
      WrapMultiple(0, q - p);
    }
    if Wrap(y) == 0 {
      var k := y / WORD;
      assert y == k * WORD;
      WrapMultiple(x, k);
    }
  }

  // ---------- when every index is within its dimension ----------

  ghost predicate InBounds(sizes: seq<nat>, idx: seq<int>) {
    |idx| == |sizes| && forall k :: 0 <= k < |sizes| ==> 0 <= idx[k] < sizes[k]
  }

  lemma InBoundsTail(sizes: seq<nat>, idx: seq<int>)
    requires InBounds(sizes, idx) && sizes != []
    ensures InBounds(sizes[1..], idx[1..]) && 0 <= idx[0] < sizes[0]
  {
  }

  lemma {:induction false} FlatBelow(sizes: seq<nat>, idx: seq<int>)
    requires InBounds(sizes, idx)
    ensures 0 <= Flat(sizes, idx) < Product(sizes)
  {
    if sizes != [] {
      InBoundsTail(sizes, idx);
      FlatBelow(sizes[1..], idx[1..]);
      LeadBelow(idx[0], sizes[0], Product(sizes[1..]), Flat(sizes[1..], idx[1..]));
    }
  }

  lemma LeadBelow(i: int, n: int, p: int, r: int)
    requires 0 <= i < n && 0 <= r < p
    ensures 0 <= i * p + r < n * p
  {
    assert i * p + p == (i + 1) * p;
    assert (i + 1) * p <= n * p;
  }

  // If the product does not overflow, nothing wraps: the new index is the row-major position.
  lemma NoWrap(t: Ty, idx: seq<int>)
    requires InBounds(Dims(t), idx) && Product(Dims(t)) <= WORD
    ensures Wrap(Flat(Dims(t), idx)) == Flat(Dims(t), idx) < Product(Dims(t))
  {
    FlatBelow(Dims(t), idx);
  }

  // Lexicographic order of indices, the first dimension first.
  ghost predicate Earlier(a: seq<int>, b: seq<int>)
    requires |a| == |b|
  {
    a != [] && (a[0] < b[0] || (a[0] == b[0] && Earlier(a[1..], b[1..])))
  }

  lemma {:induction false} FlatIncreases(sizes: seq<nat>, a: seq<int>, b: seq<int>)
    requires InBounds(sizes, a) && InBounds(sizes, b)
    ensures Earlier(a, b) ==> Flat(sizes, a) < Flat(sizes, b)
  {
    if Earlier(a, b) {
      InBoundsTail(sizes, a);
      InBoundsTail(sizes, b);
      if a[0] < b[0] {
        FlatBelow(sizes[1..], a[1..]);
        FlatBelow(sizes[1..], b[1..]);
        LeadBelow(a[0], b[0], Product(sizes[1..]), Flat(sizes[1..], a[1..]));
      } else {
        FlatIncreases(sizes[1..], a[1..], b[1..]);
      }
    }
  }

  lemma {:induction false} Trichotomy(a: seq<int>, b: seq<int>)
    requires |a| == |b|
    ensures a == b || Earlier(a, b) || Earlier(b, a)
  {
    if a != [] {
      Trichotomy(a[1..], b[1..]);
      if a[0] == b[0] && a[1..] == b[1..] { assert a == [a[0]] + a[1..] && b == [b[0]] + b[1..]; }
    }
  }

  // Different elements have different positions, in row-major order.
  lemma FlatOrders(sizes: seq<nat>, a: seq<int>, b: seq<int>)
    requires InBounds(sizes, a) && InBounds(sizes, b)
    ensures Flat(sizes, a) < Flat(sizes, b) <==> Earlier(a, b)
    ensures Flat(sizes, a) == Flat(sizes, b) <==> a == b
  {
    Trichotomy(a, b);
    FlatIncreases(sizes, a, b);
    FlatIncreases(sizes, b, a);
  }

  // Dividing by the sizes again and again, the innermost first, gives the indices back.
  function Unflatten(sizes: seq<nat>, flat: int): (r: seq<int>)
    requires forall k :: 0 <= k < |sizes| ==> sizes[k] > 0
    ensures |r| == |sizes|
  {
    if sizes == [] then []
    else
      var n := sizes[|sizes| - 1];
      Unflatten(sizes[..|sizes| - 1], flat / n) + [flat % n]
  }

  lemma {:induction false} ProductLast(sizes: seq<nat>, n: nat)
    ensures Product(sizes + [n]) == Product(sizes) * n
  {
    if sizes == [] {
      assert (sizes + [n])[1..] == [];
    } else {
      assert (sizes + [n])[1..] == sizes[1..] + [n];
      ProductLast(sizes[1..], n);
      Associate(sizes[0], Product(sizes[1..]), n);
    }
  }

  lemma {:induction false} FlatLast(sizes: seq<nat>, idx: seq<int>, n: nat, i: int)
    requires |idx| == |sizes|
    ensures Flat(sizes + [n], idx + [i]) == Flat(sizes, idx) * n + i
  {
    if sizes == [] {
      assert (sizes + [n])[1..] == [] && (idx + [i])[1..] == [];
    } else {
      assert (sizes + [n])[1..] == sizes[1..] + [n] && (idx + [i])[1..] == idx[1..] + [i];
      FlatLast(sizes[1..], idx[1..], n, i);
      ProductLast(sizes[1..], n);
      Associate(idx[0], Product(sizes[1..]), n);
      Distribute(idx[0] * Product(sizes[1..]), Flat(sizes[1..], idx[1..]), n);
    }
  }

  lemma AtLeast(k: int, n: int)
    requires k >= 1 && n >= 0
    ensures k * n >= n
  {
    Distribute(k - 1, 1, n);
    assert (k - 1) * n >= 0;
  }

  lemma OneQuotient(a: int, b: int, q: int, r: int, n: int)
    requires a * n + b == q * n + r && 0 <= b < n && 0 <= r < n
    ensures a == q && b == r
  {
    Distribute(q, a - q, n);
    Distribute(a, q - a, n);
    if a > q {
      AtLeast(a - q, n);
    } else if a < q {
      AtLeast(q - a, n);
    }
  }

  lemma DivMod(q: int, n: int, r: int)
    requires 0 <= r < n
    ensures (q * n + r) / n == q && (q * n + r) % n == r
  {
    var x := q * n + r;
    OneQuotient(x / n, x % n, q, r, n);
  }

  lemma {:induction false} RoundTrip(sizes: seq<nat>, idx: seq<int>)
    requires InBounds(sizes, idx)
    ensures (forall k :: 0 <= k < |sizes| ==> sizes[k] > 0) && Unflatten(sizes, Flat(sizes, idx)) == idx
  {
    if sizes != [] {
      var (s, i, k) := (sizes[..|sizes| - 1], idx[..|sizes| - 1], |sizes| - 1);
      assert sizes == s + [sizes[k]] && idx == i + [idx[k]];
      RoundTrip(s, i);
      FlatLast(s, i, sizes[k], idx[k]);
      DivMod(Flat(s, i), sizes[k], idx[k]);
    }
  }
}
