/** Row-major indexing of n-dimensional shapes: flat positions, index tuples and the odometer that
    both `dlite_array_iter_next()` and `dlite_type_ndcast()` use to step from one tuple to the next. */
module MixedRadix {

  /** Number of elements in an array of the given shape. */
  function Product(shape: seq<nat>): nat {
    if shape == [] then 1 else shape[0] * Product(shape[1..])
  }

  ghost predicate InBounds(idx: seq<int>, shape: seq<nat>) {
    |idx| == |shape| && forall i | 0 <= i < |idx| :: 0 <= idx[i] < shape[i]
  }

  /** Flat row-major position of an index tuple. */
  function Ravel(idx: seq<int>, shape: seq<nat>): int
    requires |idx| == |shape|
  {
    if idx == [] then 0 else idx[0] * Product(shape[1..]) + Ravel(idx[1..], shape[1..])
  }

  /** Index tuple of a flat row-major position.  Position 0 of any shape is the all-zero tuple. */
  function Unravel(k: nat, shape: seq<nat>): (idx: seq<int>)
    ensures |idx| == |shape|
  {
    if shape == [] then []
    else
      var p := Product(shape[1..]);
      if p == 0 then [0] + Unravel(0, shape[1..]) else [k / p] + Unravel(k % p, shape[1..])
  }

  function Zeros(n: nat): seq<int> {
    seq(n, _ => 0)
  }

  function Reverse<T>(s: seq<T>): (r: seq<T>)
    ensures |r| == |s|
    ensures forall i | 0 <= i < |s| :: r[i] == s[|s| - 1 - i]
  {
    seq(|s|, i requires 0 <= i < |s| => s[|s| - 1 - i])
  }

  /** Inner product of index and strides: the offset computed by `dlite_array_index()`. */
  function Dot(idx: seq<int>, strides: seq<int>): int
    requires |idx| == |strides|
  {
    if idx == [] then 0 else idx[0] * strides[0] + Dot(idx[1..], strides[1..])
  }

  /** Number of bytes that an array of the given shape spans when its elements of `size` bytes follow
      each other without gaps. */
  function Span(shape: seq<nat>, size: nat): nat {
    if shape == [] then size else Span(shape[1..], size) * shape[0]
  }

  /** Strides of a C-continuous array with elements of the given size. */
  function CStrides(shape: seq<nat>, size: nat): (strides: seq<int>)
    ensures |strides| == |shape|
  {
    if shape == [] then [] else [Span(shape[1..], size)] + CStrides(shape[1..], size)
  }

  // ----- Positions and tuples are in bijection -----

  lemma {:induction false} ProductPositive(shape: seq<nat>)
    ensures 0 < Product(shape) <==> forall i | 0 <= i < |shape| :: 0 < shape[i]
  {
    if shape != [] {
      ProductPositive(shape[1..]);
      assert shape == [shape[0]] + shape[1..];
      if 0 < shape[0] && 0 < Product(shape[1..]) { MulPositive(shape[0], Product(shape[1..])); }
    }
  }

  lemma MulPositive(a: nat, b: nat)
    requires 0 < a && 0 < b
    ensures 0 < a * b
  {}

  lemma MulMonotonic(a: int, b: int, p: nat)
    requires a <= b
    ensures a * p <= b * p
  {}

  lemma MulDistributes(a: int, b: int, p: int)
    ensures (a + b) * p == a * p + b * p
  {}

  lemma MulAssociates(a: int, b: int, c: int)
    ensures a * (b * c) == (a * b) * c
    ensures (b * c) * a == (a * b) * c
  {}

  lemma DivModIdentity(x: int, p: nat)
    requires p > 0
    ensures x == (x / p) * p + x % p && 0 <= x % p < p
  {}

  lemma QuotientIsNat(x: nat, p: nat)
    requires p > 0
    ensures x / p >= 0
  {}

  /** q*p + r with r < p has quotient q and remainder r. */
  lemma DivModUnique(q: int, p: nat, r: nat)
    requires r < p
    ensures (q * p + r) / p == q && (q * p + r) % p == r
  {
    var x := q * p + r;
    var d := x / p - q;
    MulDistributes(d, q, p);
    assert d * p == r - x % p;
    if d >= 1 { MulMonotonic(1, d, p); }
    if d <= -1 { MulMonotonic(d, -1, p); }
  }

  /** (hi, lo) is a valid pair of digits exactly when the number they write is below n*p. */
  lemma DigitBound(hi: int, n: nat, lo: nat, p: nat)
    requires lo < p
    ensures 0 <= hi < n <==> 0 <= hi * p + lo < n * p
  {
    MulDistributes(hi, 1, p);
    if hi < 0 {
      MulMonotonic(hi + 1, 0, p);
    } else {
      MulMonotonic(0, hi, p);
      if hi < n { MulMonotonic(hi + 1, n, p); } else { MulMonotonic(n, hi, p); }
    }
  }

  lemma {:induction false} RavelInBounds(idx: seq<int>, shape: seq<nat>)
    requires InBounds(idx, shape)
    ensures 0 <= Ravel(idx, shape) < Product(shape)
  {
    if idx != [] {
      RavelInBounds(idx[1..], shape[1..]);
      DigitBound(idx[0], shape[0], Ravel(idx[1..], shape[1..]), Product(shape[1..]));
    }
  }

  /** The leading digit of a position, and the position that the other digits write. */
  lemma UnravelSplit(k: nat, shape: seq<nat>)
    requires k < Product(shape) && shape != []
    ensures var p, idx := Product(shape[1..]), Unravel(k, shape);
      && p > 0 && idx[0] == k / p && idx[1..] == Unravel(k % p, shape[1..])
      && 0 <= k % p < p && k == idx[0] * p + k % p && 0 <= idx[0] < shape[0]
  {
    var p := Product(shape[1..]);
    assert p != 0;
    DivModIdentity(k, p);
    DigitBound(k / p, shape[0], k % p, p);
  }

  lemma {:induction false} RavelUnravel(k: nat, shape: seq<nat>)
    requires k < Product(shape)
    ensures InBounds(Unravel(k, shape), shape)
    ensures Ravel(Unravel(k, shape), shape) == k
  {
    if shape != [] {
      var idx, t := Unravel(k, shape), shape[1..];
      UnravelSplit(k, shape);
      RavelUnravel(k % Product(t), t);
      assert InBounds(idx[1..], t);
      assert idx == [idx[0]] + idx[1..];
    }
  }

  lemma {:induction false} UnravelRavel(idx: seq<int>, shape: seq<nat>)
    requires InBounds(idx, shape)
    ensures 0 <= Ravel(idx, shape) && Unravel(Ravel(idx, shape), shape) == idx
  {
    RavelInBounds(idx, shape);
    if idx != [] {
      RavelInBounds(idx[1..], shape[1..]);
      UnravelRavel(idx[1..], shape[1..]);
      DivModUnique(idx[0], Product(shape[1..]), Ravel(idx[1..], shape[1..]));
    }
  }

  lemma {:induction false} UnravelZero(shape: seq<nat>)
    ensures Unravel(0, shape) == Zeros(|shape|)
  {
    if shape != [] {
      UnravelZero(shape[1..]);
      var p := Product(shape[1..]);
      if p != 0 { DivModUnique(0, p, 0); }
    }
  }

  lemma {:induction false} RavelZeros(shape: seq<nat>)
    ensures Ravel(Zeros(|shape|), shape) == 0
  {
    if shape != [] {
      assert Zeros(|shape|)[1..] == Zeros(|shape[1..]|);
      RavelZeros(shape[1..]);
    }
  }

  // ----- The odometer -----

  /** Digits above n are at their maximum, so the carry reaches digit n. */
  ghost predicate CarryReaches(idx: seq<int>, shape: seq<nat>, n: int) {
    |idx| == |shape| && forall j | n < j < |idx| && 0 <= j :: idx[j] + 1 == shape[j]
  }

  /** A tuple whose digits are all at their maximum is the last position. */
  lemma {:induction false} AllMaxIsLast(idx: seq<int>, shape: seq<nat>)
    requires CarryReaches(idx, shape, -1)
    ensures Ravel(idx, shape) + 1 == Product(shape)
  {
    if idx != [] {
      assert forall j | 0 <= j < |idx[1..]| :: idx[1..][j] == idx[j + 1] && shape[1..][j] == shape[j + 1];
      AllMaxIsLast(idx[1..], shape[1..]);
      MulDistributes(idx[0], 1, Product(shape[1..]));
    }
  }

  /** The tuple after a carry into digit n: that digit incremented, the later ones reset. */
  function Carried(idx: seq<int>, n: nat): (next: seq<int>)
    requires n < |idx|
    ensures |next| == |idx|
  {
    idx[..n] + [idx[n] + 1] + Zeros(|idx| - n - 1)
  }

  lemma CarryReachesTail(idx: seq<int>, shape: seq<nat>, n: int)
    requires idx != [] && -1 <= n && CarryReaches(idx, shape, n)
    ensures CarryReaches(idx[1..], shape[1..], n - 1)
  {
    assert forall j | 0 <= j < |idx[1..]| :: idx[1..][j] == idx[j + 1] && shape[1..][j] == shape[j + 1];
  }

  /** Incrementing digit n and zeroing the maximal digits after it moves one position forward. */
  lemma {:induction false} CarryAdvances(idx: seq<int>, shape: seq<nat>, n: nat)
    requires n < |idx| && CarryReaches(idx, shape, n)
    ensures Ravel(Carried(idx, n), shape) == Ravel(idx, shape) + 1
  {
    var next, p := Carried(idx, n), Product(shape[1..]);
    CarryReachesTail(idx, shape, n);
    if n == 0 {
      assert next[1..] == Zeros(|shape[1..]|);
      RavelZeros(shape[1..]);
      AllMaxIsLast(idx[1..], shape[1..]);
      MulDistributes(idx[0], 1, p);
    } else {
      CarryAdvances(idx[1..], shape[1..], n - 1);
      assert next[1..] == Carried(idx[1..], n - 1);
    }
  }

  lemma CarriedInBounds(idx: seq<int>, shape: seq<nat>, n: nat)
    requires InBounds(idx, shape) && n < |idx| && idx[n] + 1 < shape[n]
    ensures InBounds(Carried(idx, n), shape)
  {
    forall i | 0 <= i < |idx| ensures 0 <= Carried(idx, n)[i] < shape[i] {
      assert 0 <= idx[i] < shape[i];
    }
  }

  /** One odometer step from position k lands on the tuple of position k+1. */
  lemma OdometerStep(k: nat, shape: seq<nat>, n: nat)
    requires k < Product(shape)
    requires n < |shape| && CarryReaches(Unravel(k, shape), shape, n)
    requires Unravel(k, shape)[n] + 1 < shape[n]
    ensures k + 1 < Product(shape)
    ensures Unravel(k + 1, shape) == Carried(Unravel(k, shape), n)
  {
    var idx := Unravel(k, shape);
    RavelUnravel(k, shape);
    CarryAdvances(idx, shape, n);
    CarriedInBounds(idx, shape, n);
    RavelInBounds(Carried(idx, n), shape);
    UnravelRavel(Carried(idx, n), shape);
  }

  /** The carry runs off the front exactly at the last position. */
  lemma OdometerEnd(k: nat, shape: seq<nat>)
    requires k < Product(shape)
    ensures CarryReaches(Unravel(k, shape), shape, -1) <==> k + 1 == Product(shape)
  {
    var idx := Unravel(k, shape);
    RavelUnravel(k, shape);
    if CarryReaches(idx, shape, -1) {
      AllMaxIsLast(idx, shape);
    } else {
      var n := LastNonMax(idx, shape);
      OdometerStep(k, shape, n);
    }
  }

  lemma LastNonMax(idx: seq<int>, shape: seq<nat>) returns (n: nat)
    requires InBounds(idx, shape) && !CarryReaches(idx, shape, -1)
    ensures n < |idx| && CarryReaches(idx, shape, n) && idx[n] + 1 < shape[n]
  {
    var m := |idx| - 1;
    while m >= 0 && idx[m] + 1 == shape[m]
      invariant -1 <= m < |idx| && CarryReaches(idx, shape, m)
    {
      m := m - 1;
    }
    n := m;
  }

  // ----- Strides -----

  lemma {:induction false} SpanIsProduct(shape: seq<nat>, size: nat)
    ensures Span(shape, size) == Product(shape) * size
  {
    if shape != [] {
      SpanIsProduct(shape[1..], size);
      MulAssociates(shape[0], Product(shape[1..]), size);
    }
  }

  lemma {:induction false} CStridesAt(shape: seq<nat>, size: nat, i: nat)
    requires i < |shape|
    ensures CStrides(shape, size)[i] == Span(shape[i + 1..], size)
    ensures Span(shape[i + 1..], size) * shape[i] == Span(shape[i..], size)
  {
    assert shape[i..][1..] == shape[i + 1..];
    if i > 0 {
      CStridesAt(shape[1..], size, i - 1);
      assert shape[1..][i..] == shape[i + 1..];
    }
  }

  /** With C strides the offset of a tuple is its flat position times the element size. */
  lemma {:induction false} DotCStrides(idx: seq<int>, shape: seq<nat>, size: nat)
    requires |idx| == |shape|
    ensures Dot(idx, CStrides(shape, size)) == Ravel(idx, shape) * size
  {
    if idx != [] {
      var p := Product(shape[1..]);
      DotCStrides(idx[1..], shape[1..], size);
      SpanIsProduct(shape[1..], size);
      MulAssociates(idx[0], p, size);
      MulDistributes(idx[0] * p, Ravel(idx[1..], shape[1..]), size);
      assert CStrides(shape, size)[1..] == CStrides(shape[1..], size);
    }
  }

  lemma {:induction false} DotLast(idx: seq<int>, strides: seq<int>, m: nat)
    requires |idx| == |strides| == m + 1
    ensures Dot(idx, strides) == Dot(idx[..m], strides[..m]) + idx[m] * strides[m]
  {
    if m > 0 {
      DotLast(idx[1..], strides[1..], m - 1);
      assert idx[1..][..m - 1] == idx[..m][1..] && strides[1..][..m - 1] == strides[..m][1..];
    }
  }

  lemma {:induction false} DotReverse(idx: seq<int>, strides: seq<int>)
    requires |idx| == |strides|
    ensures Dot(Reverse(idx), Reverse(strides)) == Dot(idx, strides)
  {
    if idx != [] {
      var m := |idx| - 1;
      DotReverse(idx[1..], strides[1..]);
      assert Reverse(idx)[..m] == Reverse(idx[1..]) && Reverse(strides)[..m] == Reverse(strides[1..]);
      DotLast(Reverse(idx), Reverse(strides), m);
    }
  }

  lemma {:induction false} ProductAppend(a: seq<nat>, b: seq<nat>)
    ensures Product(a + b) == Product(a) * Product(b)
  {
    if a == [] {
      assert a + b == b;
    } else {
      ProductAppend(a[1..], b);
      assert (a + b)[1..] == a[1..] + b;
      MulAssociates(a[0], Product(a[1..]), Product(b));
    }
  }

  lemma ProductSnoc(a: seq<nat>, x: nat)
    ensures Product(a + [x]) == Product(a) * x
  {
    ProductAppend(a, [x]);
    assert [x][1..] == [];
    assert Product([x]) == x;
  }

  lemma {:induction false} ProductReverse(shape: seq<nat>)
    ensures Product(Reverse(shape)) == Product(shape)
  {
    if shape != [] {
      assert Reverse(shape) == Reverse(shape[1..]) + [shape[0]];
      ProductSnoc(Reverse(shape[1..]), shape[0]);
      ProductReverse(shape[1..]);
    }
  }

  lemma {:induction false} DotZeros(strides: seq<int>)
    ensures Dot(Zeros(|strides|), strides) == 0
  {
    if strides != [] {
      assert Zeros(|strides|)[1..] == Zeros(|strides[1..]|);
      DotZeros(strides[1..]);
    }
  }

  method ProductOf(shape: seq<nat>) returns (r: nat)
    ensures r == Product(shape)
  {
    r := 1;
    var i := 0;
    while i < |shape|
      invariant 0 <= i <= |shape| && r == Product(shape[..i])
    {
      assert shape[..i + 1] == shape[..i] + [shape[i]];
      ProductSnoc(shape[..i], shape[i]);
      r := r * shape[i];
      i := i + 1;
    }
    assert shape[..i] == shape;
  }
}
