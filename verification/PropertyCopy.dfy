/** Copying an array property out of an instance, and assigning it back, in row-major ('C') or
    transposed ('F') order (`dlite-entity.c`). */
module PropertyCopy {
  import opened MixedRadix
  import opened Memory
  import opened Options
  import opened Arrays
  import opened NdCast

  /** Place in an 'F' ordered buffer of the element at row-major position k of the property: the buffer
      is walked with the reversed shape and the reversed C strides. */
  function Place(k: nat, shape: seq<nat>): int {
    Ravel(Reverse(Unravel(k, Reverse(shape))), shape)
  }

  function PlaceIn(order: char, k: nat, shape: seq<nat>): int {
    if order == 'F' then Place(k, shape) else k
  }

  /** Layout of the buffer. */
  function BufferLayout(order: char, shape: seq<nat>, size: nat): Layout {
    var l := Layout(0, size, shape, CStrides(shape, size));
    if order == 'F' then l.(dims := Reverse(l.dims), strides := Reverse(l.strides)) else l
  }

  ghost predicate SameElement(buffer: seq<Byte>, i: int, data: seq<Byte>, k: int, size: nat) {
    && 0 <= i * size <= |buffer| - size && 0 <= k * size <= |data| - size
    && buffer[i * size..i * size + size] == data[k * size..k * size + size]
  }

  /** The buffer holds the elements of the property, each at its place in the given order. */
  ghost predicate Reordered(buffer: seq<Byte>, data: seq<Byte>, order: char, shape: seq<nat>, size: nat) {
    forall k: nat | k < Product(shape) :: SameElement(buffer, PlaceIn(order, k, shape), data, k, size)
  }

  // ----- The places are a permutation -----

  lemma ReverseInBounds(idx: seq<int>, shape: seq<nat>)
    requires InBounds(idx, shape)
    ensures InBounds(Reverse(idx), Reverse(shape))
  {
    forall i | 0 <= i < |idx| ensures 0 <= Reverse(idx)[i] < Reverse(shape)[i] {
      var j := |idx| - 1 - i;
      assert 0 <= idx[j] < shape[j];
    }
  }

  /** Place is a bijection on the positions; its inverse is the place for the reversed shape. */
  lemma PlaceIsBijection(k: nat, shape: seq<nat>)
    requires k < Product(shape)
    ensures 0 <= Place(k, shape) < Product(shape)
    ensures Place(Place(k, shape), Reverse(shape)) == k
  {
    var rev := Reverse(shape);
    var idx := Unravel(k, rev);
    ProductReverse(shape);
    RavelUnravel(k, rev);
    ReverseInBounds(idx, rev);
    assert Reverse(rev) == shape && Reverse(Reverse(idx)) == idx;
    RavelInBounds(Reverse(idx), shape);
    UnravelRavel(Reverse(idx), shape);
  }

  lemma PlaceInjective(order: char, j: nat, k: nat, shape: seq<nat>)
    requires j < Product(shape) && k < Product(shape) && j != k
    ensures PlaceIn(order, j, shape) != PlaceIn(order, k, shape)
  {
    PlaceIsBijection(j, shape);
    PlaceIsBijection(k, shape);
  }

  lemma PlaceSurjective(order: char, i: nat, shape: seq<nat>) returns (k: nat)
    requires i < Product(shape)
    ensures k < Product(shape) && PlaceIn(order, k, shape) == i
  {
    ProductReverse(shape);
    PlaceIsBijection(i, Reverse(shape));
    assert Reverse(Reverse(shape)) == shape;
    k := if order == 'F' then Place(i, Reverse(shape)) else i;
  }

  lemma PlaceInRange(order: char, k: nat, shape: seq<nat>)
    requires k < Product(shape)
    ensures 0 <= PlaceIn(order, k, shape) < Product(shape)
  {
    PlaceIsBijection(k, shape);
  }

  lemma BufferSlot(order: char, shape: seq<nat>, size: nat, k: nat)
    requires k < Product(shape)
    ensures BufferLayout(order, shape, size).Valid()
    ensures BufferLayout(order, shape, size).Slot(k) == PlaceIn(order, k, shape) * size
  {
    CSlotAddr(0, shape, size, k);
    if order == 'F' {
      var idx := Unravel(k, Reverse(shape));
      DotReverse(Reverse(idx), CStrides(shape, size));
      assert Reverse(Reverse(idx)) == idx;
      DotCStrides(Reverse(idx), shape, size);
    }
  }

  lemma BufferFits(order: char, shape: seq<nat>, size: nat, length: nat)
    requires 0 < Product(shape) && Product(shape) * size <= length
    ensures var l := BufferLayout(order, shape, size);
      l.Valid() && l.Count() == Product(shape) && l.Fits(length) && l.Disjoint()
  {
    var l := BufferLayout(order, shape, size);
    ProductReverse(shape);
    forall k: nat | k < l.Visits() ensures 0 <= l.Slot(k) <= length - size {
      BufferSlot(order, shape, size, k);
      PlaceInRange(order, k, shape);
      SlotInside(PlaceIn(order, k, shape), Product(shape), size);
    }
    forall j: nat, k: nat | j < l.Visits() && k < l.Visits() && j != k
      ensures l.Slot(j) + size <= l.Slot(k) || l.Slot(k) + size <= l.Slot(j)
    {
      BufferSlot(order, shape, size, j);
      BufferSlot(order, shape, size, k);
      PlaceInjective(order, j, k, shape);
      ElementsApart(PlaceIn(order, j, shape), PlaceIn(order, k, shape), size);
    }
  }

  lemma ElementsApart(a: int, b: int, size: nat)
    requires a != b
    ensures a * size + size <= b * size || b * size + size <= a * size
  {
    MulDistributes(a, 1, size);
    MulDistributes(b, 1, size);
    if a < b { MulMonotonic(a + 1, b, size); } else { MulMonotonic(b + 1, a, size); }
  }

  // ----- Copy and assign -----

  /** Copies the property to a buffer.  Empty properties, which have no memory, and unknown orders are
      errors. */
  method CopyProperty(prop: array<Byte>, shape: seq<nat>, size: nat, order: char, buffer: array<Byte>,
                      stray: nat -> bool) returns (ok: bool)
    requires prop != buffer && prop.Length == Product(shape) * size && buffer.Length >= prop.Length
    modifies buffer
    ensures ok <==> Product(shape) > 0 && (order == 'C' || order == 'F')
    ensures ok ==> Reordered(buffer[..], prop[..], order, shape, size)
    ensures !ok ==> buffer[..] == old(buffer[..])
  {
    var count := ProductOf(shape);
    if count == 0 { return false; }
    var arr := CreateOrder(prop, 0, size, shape, order);
    if arr.None? { return false; }
    var d := Layout(0, size, arr.value.shape, arr.value.strides);
    var s := BufferLayout('C', shape, size);
    assert d == BufferLayout(order, shape, size);
    ok := Transfer(buffer, d, prop, s, shape, stray, order, 'C');
    ReorderedBySlots(buffer[..], prop[..], order, shape, size);
  }

  /** Assigns the property from a buffer. */
  method AssignProperty(prop: array<Byte>, shape: seq<nat>, size: nat, order: char, buffer: array<Byte>,
                        stray: nat -> bool) returns (ok: bool)
    requires prop != buffer && prop.Length == Product(shape) * size && buffer.Length >= prop.Length
    modifies prop
    ensures ok <==> Product(shape) > 0 && (order == 'C' || order == 'F')
    ensures ok ==> Reordered(buffer[..], prop[..], order, shape, size)
    ensures !ok ==> prop[..] == old(prop[..])
  {
    var count := ProductOf(shape);
    if count == 0 { return false; }
    var arr := CreateOrder(prop, 0, size, shape, order);
    if arr.None? { return false; }
    var d := BufferLayout('C', shape, size);
    var s := Layout(0, size, arr.value.shape, arr.value.strides);
    assert s == BufferLayout(order, shape, size);
    ok := Transfer(prop, d, buffer, s, shape, stray, 'C', order);
    ReorderedBySlots(buffer[..], prop[..], order, shape, size);
  }

  /** Casts between a property and a buffer of the same type. */
  method Transfer(dst: array<Byte>, d: Layout, src: array<Byte>, s: Layout, shape: seq<nat>, stray: nat -> bool,
                  ghost dstOrder: char, ghost srcOrder: char) returns (ok: bool)
    requires dst != src && d.size == s.size && 0 < Product(shape)
    requires dst.Length >= Product(shape) * d.size && src.Length >= Product(shape) * d.size
    requires d == BufferLayout(dstOrder, shape, d.size) && s == BufferLayout(srcOrder, shape, d.size)
    requires dstOrder == 'C' || srcOrder == 'C'
    modifies dst
    ensures ok && d.Valid() && s.Valid() && Converted(dst[..], d, src[..], s, Identity, Product(shape))
  {
    BufferFits(dstOrder, shape, d.size, dst.Length);
    BufferFits(srcOrder, shape, d.size, src.Length);
    ghost var before := dst[..];
    ghost var done;
    ok, done := NdCast.NdCast(dst, d, src, s, true, Identity, stray);
    if |d.dims| > 0 && Shortcut(d, s, true, stray) {
      assert d == s == BufferLayout('C', shape, d.size);
      ChunkConverts(d, shape, before, src[..]);
    }
  }

  /** For C-continuous memory the shortcut is right. */
  lemma ChunkConverts(l: Layout, shape: seq<nat>, dst: seq<Byte>, src: seq<Byte>)
    requires l == BufferLayout('C', shape, l.size) && 0 < Product(shape)
    requires Product(shape) * l.size <= |dst| && Product(shape) * l.size <= |src|
    ensures l.Valid() && Converted(Chunk(dst, 0, src, 0, l.Count() * l.size), l, src, l, Identity, l.Count())
  {
    BufferFits('C', shape, l.size, |dst|);
    BufferFits('C', shape, l.size, |src|);
    forall k: nat | k < l.Count() ensures 0 <= l.Slot(k) && l.Slot(k) + l.size <= l.Count() * l.size {
      BufferSlot('C', shape, l.size, k);
      SlotInside(k, l.Count(), l.size);
    }
    forall k: nat | k < l.Count()
      ensures ConvertedAt(Chunk(dst, 0, src, 0, l.Count() * l.size), l, src, l, Identity, k)
    {
      InsideIsCopied(l, l, dst, src, k);
    }
  }

  lemma SameElementBySlots(buffer: seq<Byte>, data: seq<Byte>, order: char, shape: seq<nat>, size: nat, k: nat)
    requires k < Product(shape)
    requires var b, p := BufferLayout(order, shape, size), BufferLayout('C', shape, size);
      && b.Valid() && p.Valid()
      && (ConvertedAt(buffer, b, data, p, Identity, k) || ConvertedAt(data, p, buffer, b, Identity, k))
    ensures SameElement(buffer, PlaceIn(order, k, shape), data, k, size)
  {
    var b, p := BufferLayout(order, shape, size), BufferLayout('C', shape, size);
    BufferSlot(order, shape, size, k);
    BufferSlot('C', shape, size, k);
    ElementBySlots(buffer, b, PlaceIn(order, k, shape), data, p, size, k);
  }

  lemma ElementBySlots(buffer: seq<Byte>, b: Layout, i: int, data: seq<Byte>, p: Layout, size: nat, k: nat)
    requires b.Valid() && p.Valid() && b.size == p.size == size && b.Slot(k) == i * size && p.Slot(k) == k * size
    requires ConvertedAt(buffer, b, data, p, Identity, k) || ConvertedAt(data, p, buffer, b, Identity, k)
    ensures SameElement(buffer, i, data, k, size)
  {
    ElementAt(buffer, i, b.Slot(k), data, k, p.Slot(k), size);
  }

  lemma ElementAt(buffer: seq<Byte>, i: int, start: int, data: seq<Byte>, k: int, from: int, size: nat)
    requires start == i * size && from == k * size
    requires 0 <= start <= |buffer| - size && 0 <= from <= |data| - size
    requires buffer[start..start + size] == data[from..from + size]
    ensures SameElement(buffer, i, data, k, size)
  {}

  /** Both directions of the transfer relate buffer and property in the same way. */
  lemma ReorderedBySlots(buffer: seq<Byte>, data: seq<Byte>, order: char, shape: seq<nat>, size: nat)
    requires var b, p := BufferLayout(order, shape, size), BufferLayout('C', shape, size);
      && b.Valid() && p.Valid()
      && (Converted(buffer, b, data, p, Identity, Product(shape))
        || Converted(data, p, buffer, b, Identity, Product(shape)))
    ensures Reordered(buffer, data, order, shape, size)
  {
    var b, p := BufferLayout(order, shape, size), BufferLayout('C', shape, size);
    forall k: nat | k < Product(shape) ensures SameElement(buffer, PlaceIn(order, k, shape), data, k, size) {
      assert ConvertedAt(buffer, b, data, p, Identity, k) || ConvertedAt(data, p, buffer, b, Identity, k);
      SameElementBySlots(buffer, data, order, shape, size, k);
    }
  }

  /** Copying out and assigning back restores every element: two properties that have the same buffer in
      the same order are equal. */
  lemma RoundTrip(buffer: seq<Byte>, data: seq<Byte>, restored: seq<Byte>, order: char, shape: seq<nat>, size: nat)
    requires |data| == |restored| == Product(shape) * size
    requires Reordered(buffer, data, order, shape, size) && Reordered(buffer, restored, order, shape, size)
    ensures restored == data
  {
    forall k: nat | k < Product(shape) ensures SameElement(restored, k, data, k, size) {
      assert SameElement(buffer, PlaceIn(order, k, shape), data, k, size);
      assert SameElement(buffer, PlaceIn(order, k, shape), restored, k, size);
    }
    SameElements(restored, data, Product(shape), size);
  }

  /** Assigning and copying back restores the buffer: every element of it is the place of one element. */
  lemma BufferRoundTrip(buffer: seq<Byte>, data: seq<Byte>, copied: seq<Byte>, order: char, shape: seq<nat>, size: nat)
    requires |buffer| == |copied| == Product(shape) * size
    requires Reordered(buffer, data, order, shape, size) && Reordered(copied, data, order, shape, size)
    ensures copied == buffer
  {
    forall i: nat | i < Product(shape) ensures SameElement(copied, i, buffer, i, size) {
      var k := PlaceSurjective(order, i, shape);
      assert SameElement(buffer, PlaceIn(order, k, shape), data, k, size);
      assert SameElement(copied, PlaceIn(order, k, shape), data, k, size);
    }
    SameElements(copied, buffer, Product(shape), size);
  }

  lemma {:induction false} SameElements(a: seq<Byte>, b: seq<Byte>, n: nat, size: nat)
    requires |a| == |b| && |a| >= n * size && forall k: nat | k < n :: SameElement(a, k, b, k, size)
    ensures a[..n * size] == b[..n * size]
    ensures |a| == n * size ==> a == b
  {
    if n > 0 {
      MulDistributes(n - 1, 1, size);
      SameElements(a, b, n - 1, size);
      assert SameElement(a, n - 1, b, n - 1, size);
      var i := (n - 1) * size;
      assert a[..n * size] == a[..i] + a[i..i + size] && b[..n * size] == b[..i] + b[i..i + size];
    }
    assert |a| == n * size ==> a[..n * size] == a && b[..n * size] == b;
  }

  // ----- Is 'F' order column-major? -----

  /** Position of an index tuple in column-major order. */
  function ColumnMajor(idx: seq<int>, shape: seq<nat>): int
    requires |idx| == |shape|
  {
    if idx == [] then 0 else idx[0] + ColumnMajor(idx[1..], shape[1..]) * shape[0]
  }

  /** Mixed-radix digit reversal: the digits of k are read in the opposite order. */
  function DigitReversal(k: nat, radices: seq<nat>): int
    requires k < Product(radices)
    decreases |radices|
  {
    if radices == [] then 0
    else
      var m := |radices| - 1;
      SplitLast(k, radices);
      (k % radices[m]) * Product(radices[..m]) + DigitReversal(k / radices[m], radices[..m])
  }

  lemma SplitLast(k: nat, radices: seq<nat>)
    requires radices != [] && k < Product(radices)
    ensures var m := |radices| - 1;
      && radices[m] > 0 && 0 <= k / radices[m] < Product(radices[..m]) && 0 <= k % radices[m] < radices[m]
      && k == (k / radices[m]) * radices[m] + k % radices[m]
      && Product(radices) == Product(radices[..m]) * radices[m]
  {
    var m := |radices| - 1;
    assert radices == radices[..m] + [radices[m]];
    ProductSnoc(radices[..m], radices[m]);
    assert radices[m] > 0;
    DivModIdentity(k, radices[m]);
    DigitBound(k / radices[m], Product(radices[..m]), k % radices[m], radices[m]);
  }

  lemma {:induction false} RavelSnoc(idx: seq<int>, x: int, shape: seq<nat>, n: nat)
    requires |idx| == |shape|
    ensures Ravel(idx + [x], shape + [n]) == Ravel(idx, shape) * n + x
  {
    if idx == [] {
      assert ([x] + [])[1..] == [] && [n][1..] == [];
      assert idx + [x] == [x] && shape + [n] == [n];
    } else {
      RavelSnoc(idx[1..], x, shape[1..], n);
      assert (idx + [x])[1..] == idx[1..] + [x] && (shape + [n])[1..] == shape[1..] + [n];
      ProductSnoc(shape[1..], n);
      MulAssociates(idx[0], Product(shape[1..]), n);
      MulDistributes(idx[0] * Product(shape[1..]), Ravel(idx[1..], shape[1..]), n);
    }
  }

  lemma UnravelSnoc(k: nat, shape: seq<nat>)
    requires shape != [] && k < Product(shape)
    ensures var m := |shape| - 1;
      shape[m] > 0 && k / shape[m] >= 0 && Unravel(k, shape) == Unravel(k / shape[m], shape[..m]) + [k % shape[m]]
  {
    var m := |shape| - 1;
    SplitLast(k, shape);
    var q, r := k / shape[m], k % shape[m];
    var idx := Unravel(q, shape[..m]);
    RavelUnravel(q, shape[..m]);
    assert shape == shape[..m] + [shape[m]];
    RavelSnoc(idx, r, shape[..m], shape[m]);
    assert InBounds(idx + [r], shape);
    UnravelRavel(idx + [r], shape);
  }

  lemma {:induction false} ReversalIsRavel(k: nat, radices: seq<nat>)
    requires k < Product(radices)
    ensures DigitReversal(k, radices) == Ravel(Reverse(Unravel(k, radices)), Reverse(radices))
    decreases |radices|
  {
    if radices != [] {
      var m := |radices| - 1;
      SplitLast(k, radices);
      UnravelSnoc(k, radices);
      ReversalIsRavel(k / radices[m], radices[..m]);
      assert Reverse(radices) == [radices[m]] + Reverse(radices[..m]);
      assert Reverse(Unravel(k, radices))
          == [k % radices[m]] + Reverse(Unravel(k / radices[m], radices[..m]));
      ProductReverse(radices[..m]);
    }
  }

  lemma {:induction false} ColumnMajorIsRavel(idx: seq<int>, shape: seq<nat>)
    requires |idx| == |shape|
    ensures ColumnMajor(idx, shape) == Ravel(Reverse(idx), Reverse(shape))
  {
    if idx != [] {
      ColumnMajorIsRavel(idx[1..], shape[1..]);
      assert Reverse(idx) == Reverse(idx[1..]) + [idx[0]] && Reverse(shape) == Reverse(shape[1..]) + [shape[0]];
      RavelSnoc(Reverse(idx[1..]), idx[0], Reverse(shape[1..]), shape[0]);
    }
  }

  /** The shape without its dimensions of size one. */
  function Squeeze(shape: seq<nat>): seq<nat>
    decreases |shape|
  {
    if shape == [] then []
    else
      var m := |shape| - 1;
      Squeeze(shape[..m]) + if shape[m] == 1 then [] else [shape[m]]
  }

  lemma {:induction false} SqueezeCons(x: nat, shape: seq<nat>)
    ensures Squeeze([x] + shape) == (if x == 1 then [] else [x]) + Squeeze(shape)
    decreases |shape|
  {
    if shape == [] {
      assert [x] + shape == [x] && [x][..0] == [];
    } else {
      var m := |shape| - 1;
      SqueezeCons(x, shape[..m]);
      assert ([x] + shape)[..m + 1] == [x] + shape[..m];
    }
  }

  lemma {:induction false} SqueezeReverse(shape: seq<nat>)
    ensures Squeeze(Reverse(shape)) == Reverse(Squeeze(shape))
    decreases |shape|
  {
    if shape != [] {
      var m := |shape| - 1;
      SqueezeReverse(shape[..m]);
      assert Reverse(shape) == [shape[m]] + Reverse(shape[..m]);
      SqueezeCons(shape[m], Reverse(shape[..m]));
    }
  }

  ghost predicate SameReversal(a: seq<nat>, b: seq<nat>) {
    && Product(a) == Product(b)
    && forall k: nat | k < Product(a) :: DigitReversal(k, a) == DigitReversal(k, b)
  }

  lemma UnitRadix(a: seq<nat>)
    ensures SameReversal(a + [1], a)
  {
    ProductSnoc(a, 1);
    var b := a + [1];
    assert b[|a|] == 1 && b[..|a|] == a;
    forall k: nat | k < Product(b) ensures DigitReversal(k, b) == DigitReversal(k, a) {
      SplitLast(k, b);
      DivModUnique(k, 1, 0);
    }
  }

  lemma AppendRadix(a: seq<nat>, b: seq<nat>, x: nat)
    requires SameReversal(a, b)
    ensures SameReversal(a + [x], b + [x])
  {
    ProductSnoc(a, x);
    ProductSnoc(b, x);
    var c, d := a + [x], b + [x];
    assert c[..|a|] == a && d[..|b|] == b;
    forall k: nat | k < Product(c) ensures DigitReversal(k, c) == DigitReversal(k, d) {
      SplitLast(k, c);
    }
  }

  /** Dimensions of size one write no digits. */
  lemma {:induction false} SqueezeKeepsReversal(shape: seq<nat>)
    ensures SameReversal(shape, Squeeze(shape))
    decreases |shape|
  {
    if shape != [] {
      var m := |shape| - 1;
      SqueezeKeepsReversal(shape[..m]);
      assert shape == shape[..m] + [shape[m]];
      if shape[m] == 1 {
        UnitRadix(shape[..m]);
        assert shape == shape[..m] + [1] && Squeeze(shape) == Squeeze(shape[..m]);
      } else {
        AppendRadix(shape[..m], Squeeze(shape[..m]), shape[m]);
      }
    }
  }

  /** A multiple of the last radix reverses like its quotient, and 1 reverses to the leading place. */
  lemma ReversalAt(radices: seq<nat>, q: nat)
    requires radices != [] && radices[|radices| - 1] >= 2 && q < Product(radices[..|radices| - 1])
    ensures var m := |radices| - 1; var a := radices[m];
      && Product(radices) == Product(radices[..m]) * a && q * a < Product(radices) && 1 < Product(radices)
      && DigitReversal(q * a, radices) == DigitReversal(q, radices[..m])
      && DigitReversal(1, radices) == Product(radices[..m])
  {
    var m := |radices| - 1;
    var a := radices[m];
    assert radices == radices[..m] + [a];
    ProductSnoc(radices[..m], a);
    DivModUnique(q, a, 0);
    DigitBound(q, Product(radices[..m]), 0, a);
    DivModUnique(0, a, 1);
    DigitBound(0, Product(radices[..m]), 1, a);
    ReversalOfZero(radices[..m]);
  }

  lemma {:induction false} ReversalOfZero(radices: seq<nat>)
    requires 0 < Product(radices)
    ensures DigitReversal(0, radices) == 0
    decreases |radices|
  {
    if radices != [] {
      var m := |radices| - 1;
      SplitLast(0, radices);
      DivModUnique(0, radices[m], 0);
      ReversalOfZero(radices[..m]);
    }
  }

  /** All radices are at least two. */
  ghost predicate Proper(radices: seq<nat>) {
    forall i | 0 <= i < |radices| :: radices[i] >= 2
  }

  lemma {:induction false} SqueezeIsProper(shape: seq<nat>)
    requires 0 < Product(shape)
    ensures Proper(Squeeze(shape))
    decreases |shape|
  {
    if shape != [] {
      SplitLast(0, shape);
      SqueezeIsProper(shape[..|shape| - 1]);
    }
  }

  lemma ProperProduct(radices: seq<nat>)
    requires Proper(radices)
    ensures 0 < Product(radices) && (radices != [] ==> 1 < Product(radices))
  {
    ProductPositive(radices);
    if radices != [] {
      var m := |radices| - 1;
      assert radices == radices[..m] + [radices[m]];
      ProductSnoc(radices[..m], radices[m]);
      ProductPositive(radices[..m]);
      MulMonotonic(1, Product(radices[..m]), radices[m]);
    }
  }

  /** Proper radix systems with the same digit reversal are the same. */
  lemma {:induction false} ReversalDeterminesRadices(a: seq<nat>, b: seq<nat>)
    requires Proper(a) && Proper(b) && SameReversal(a, b)
    ensures a == b
    decreases |a|
  {
    ProperProduct(a);
    ProperProduct(b);
    if a != [] && b != [] {
      var m, n := |a| - 1, |b| - 1;
      ProperProduct(a[..m]);
      ProperProduct(b[..n]);
      ReversalAt(a, 0);
      ReversalAt(b, 0);
      var p := Product(a[..m]);
      assert p == Product(b[..n]);
      SameFactor(p, a[m], b[n]);
      forall q: nat | q < p ensures DigitReversal(q, a[..m]) == DigitReversal(q, b[..n]) {
        ReversalAt(a, q);
        ReversalAt(b, q);
      }
      ReversalDeterminesRadices(a[..m], b[..n]);
      assert a == a[..m] + [a[m]] && b == b[..n] + [b[n]];
    }
  }

  lemma SameFactor(p: nat, a: nat, b: nat)
    requires p > 0 && p * a == p * b
    ensures a == b
  {}

  /** The copy and column-major order reverse the digits of the reversed and of the given shape. */
  lemma PlacesAreReversals(k: nat, shape: seq<nat>)
    requires k < Product(shape)
    ensures k < Product(Reverse(shape)) && Place(k, shape) == DigitReversal(k, Reverse(shape))
    ensures ColumnMajor(Unravel(k, shape), shape) == DigitReversal(k, shape)
  {
    ProductReverse(shape);
    assert Reverse(Reverse(shape)) == shape;
    ReversalIsRavel(k, Reverse(shape));
    ReversalIsRavel(k, shape);
    ColumnMajorIsRavel(Unravel(k, shape), shape);
  }

  lemma SameReversalIff(a: seq<nat>, b: seq<nat>)
    requires 0 < Product(a) == Product(b)
    ensures SameReversal(a, b) <==> Squeeze(a) == Squeeze(b)
  {
    SqueezeKeepsReversal(a);
    SqueezeKeepsReversal(b);
    SqueezeIsProper(a);
    SqueezeIsProper(b);
    if SameReversal(a, b) { ReversalDeterminesRadices(Squeeze(a), Squeeze(b)); }
  }

  /** An 'F' ordered copy is column-major exactly when the shape, leaving out dimensions of size one,
      reads the same in both directions. */
  lemma FOrderIsColumnMajorIff(shape: seq<nat>)
    requires 0 < Product(shape)
    ensures (forall k: nat | k < Product(shape) :: Place(k, shape) == ColumnMajor(Unravel(k, shape), shape))
       <==> Squeeze(shape) == Reverse(Squeeze(shape))
  {
    ProductReverse(shape);
    SqueezeReverse(shape);
    SameReversalIff(shape, Reverse(shape));
    forall k: nat | k < Product(shape)
      ensures Place(k, shape) == DigitReversal(k, Reverse(shape))
      ensures ColumnMajor(Unravel(k, shape), shape) == DigitReversal(k, shape)
    {
      PlacesAreReversals(k, shape);
    }
  }

  /** A 2x3 property is not copied in column-major order: element [0,1] lands at 2 in column-major
      order, but at 3 in the copy. */
  lemma FOrderExample()
    ensures Place(1, [2, 3]) == 3 && ColumnMajor(Unravel(1, [2, 3]), [2, 3]) == 2
  {
    assert Reverse([2, 3]) == [3, 2];
    assert [3, 2][1..] == [2] && [2, 3][1..] == [3] && [2][1..] == [] && [3][1..] == [];
    assert Product([2]) == 2 && Product([3]) == 3;
    assert Unravel(1, [2]) == [1] && Unravel(1, [3]) == [1];
    assert Unravel(1, [3, 2]) == [0, 1] && Unravel(1, [2, 3]) == [0, 1];
    assert Reverse([0, 1]) == [1, 0] && [1, 0][1..] == [0] && [0, 1][1..] == [1];
    assert Ravel([0], [3]) == 0 && ColumnMajor([1], [3]) == 1;
  }
}
