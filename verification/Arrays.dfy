/** Strided n-dimensional arrays (`dlite-arrays.c`): creation, transposition, iteration, reshaping and
    the continuous copy.  An array describes a view of a memory block; it never owns the block. */
module Arrays {
  import opened MixedRadix
  import opened Memory
  import opened Options

  class DLiteArray {
    var data: array<Byte>   // memory block that the data pointer points into
    var base: int           // offset of the data pointer in the block
    const size: nat         // size of one element
    var shape: seq<nat>
    var strides: seq<int>

    ghost predicate Valid()
      reads this
    {
      |shape| == |strides|
    }

    /** Every element lies inside the memory block. */
    ghost predicate InsideBlock()
      requires Valid()
      reads this
    {
      SlotsFit(data.Length, base, shape, strides, size, Product(shape))
    }

    /** The bytes read at an index tuple. */
    ghost function ValueAt(idx: seq<int>): seq<Byte>
      requires Valid() && InsideBlock() && InBounds(idx, shape)
      reads this, data
    {
      RavelInBounds(idx, shape);
      UnravelRavel(idx, shape);
      var a := SlotAddr(base, shape, strides, Ravel(idx, shape));
      assert 0 <= a <= data.Length - size;
      data[a..a + size]
    }

    constructor (data: array<Byte>, base: int, size: nat, shape: seq<nat>)
      ensures Valid() && this.data == data && this.base == base && this.size == size
      ensures this.shape == shape && strides == CStrides(shape, size)
    {
      this.data := data;
      this.base := base;
      this.size := size;
      this.shape := shape;
      this.strides := Zeros(|shape|);
      new;
      SetCStrides();
    }

    /** Rewrites the strides to those of the C-continuous layout. */
    method SetCStrides()
      requires Valid()
      modifies this`strides
      ensures Valid() && strides == CStrides(shape, size)
    {
      var i, sz := |shape| - 1, size;
      assert shape[i + 1..] == [];
      while i >= 0
        invariant -1 <= i < |shape| && sz == Span(shape[i + 1..], size) && |strides| == |shape|
        invariant forall j | i < j < |shape| :: strides[j] == CStrides(shape, size)[j]
      {
        CStridesAt(shape, size, i);
        strides := strides[i := sz];
        sz := sz * shape[i];
        i := i - 1;
      }
    }

    /** True exactly for the C-continuous memory layout. */
    method IsContinuous() returns (r: bool)
      requires Valid()
      ensures r <==> strides == CStrides(shape, size)
    {
      var n, sz := |shape| - 1, size;
      assert shape[n + 1..] == [];
      while n >= 0
        invariant -1 <= n < |shape| && sz == Span(shape[n + 1..], size)
        invariant forall j | n < j < |shape| :: strides[j] == CStrides(shape, size)[j]
      {
        CStridesAt(shape, size, n);
        if strides[n] != sz { return false; }
        sz := sz * shape[n];
        n := n - 1;
      }
      return true;
    }

    /** Address of the element at an index tuple. */
    method Index(ind: array<int>) returns (p: int)
      requires Valid() && ind.Length == |shape|
      ensures p == base + Dot(ind[..], strides)
    {
      var i, offset := 0, 0;
      assert ind[..0] == [] && strides[..0] == [];
      while i < |shape|
        invariant 0 <= i <= |shape| && offset == Dot(ind[..i], strides[..i])
      {
        DotLast(ind[..i + 1], strides[..i + 1], i);
        assert ind[..i + 1][..i] == ind[..i] && strides[..i + 1][..i] == strides[..i];
        offset := offset + ind[i] * strides[i];
        i := i + 1;
      }
      assert ind[..i] == ind[..] && strides[..i] == strides;
      p := base + offset;
    }

    /** A view of the same block with the order of the dimensions reversed. */
    method Transpose() returns (r: DLiteArray)
      requires Valid()
      ensures fresh(r) && r.Valid() && r.data == data && r.base == base && r.size == size
      ensures r.shape == Reverse(shape) && r.strides == Reverse(strides)
    {
      r := new DLiteArray(data, base, size, shape);
      var i := 0;
      while i < |shape|
        invariant 0 <= i <= |shape| == |r.shape| == |r.strides|
        invariant r.data == data && r.base == base
        invariant forall j | 0 <= j < i :: r.shape[j] == Reverse(shape)[j] && r.strides[j] == Reverse(strides)[j]
      {
        var j := |shape| - 1 - i;
        r.shape := r.shape[i := shape[j]];
        r.strides := r.strides[i := strides[j]];
        i := i + 1;
      }
    }

    /** A C-continuous view with a new shape; None unless this array is C-continuous and the element
        counts agree. */
    method Reshape(newShape: seq<nat>) returns (r: Option<DLiteArray>)
      requires Valid()
      ensures r.Some? <==> strides == CStrides(shape, size) && Product(newShape) == Product(shape)
      ensures r.Some? ==>
        && fresh(r.value) && r.value.Valid() && r.value.shape == newShape && r.value.size == size
        && r.value.data == data
        && forall k: nat | k < Product(shape) ::
          SlotAddr(r.value.base, newShape, r.value.strides, k) == SlotAddr(base, shape, strides, k)
    {
      var cont := IsContinuous();
      if !cont { return None; }
      var prod1 := ProductOf(shape);
      var prod2 := ProductOf(newShape);
      if prod1 != prod2 { return None; }
      var a := new DLiteArray(data, base, size, newShape);
      forall k: nat | k < prod1
        ensures SlotAddr(a.base, newShape, a.strides, k) == SlotAddr(base, shape, strides, k)
      {
        CSlotAddr(base, newShape, size, k);
        CSlotAddr(base, shape, size, k);
      }
      return Some(a);
    }

    /** Copies the elements to a new block, of which `uninit` are the bytes that malloc() returns.
        Already continuous arrays are left alone.  Otherwise the array is redirected to the new block,
        which then holds the elements that the iterator visited. */
    method MakeContinuous(uninit: seq<Byte>) returns (r: array<Byte>)
      requires Valid() && InsideBlock()
      requires |uninit| == Product(shape) * size
      modifies this
      ensures fresh(r) && r.Length == |uninit| && Valid() && shape == old(shape)
      ensures strides == CStrides(shape, size) && InsideBlock()
      ensures old(strides) == CStrides(shape, size) ==> unchanged(this)
      ensures old(strides) != CStrides(shape, size) ==> data == r && base == 0
      ensures |shape| != 1 || old(strides) == CStrides(shape, size) ==>
        forall idx | InBounds(idx, shape) :: ValueAt(idx) == old(ValueAt(idx))
      ensures |shape| == 1 && old(strides) != CStrides(shape, size) ==> data[..] == uninit
    {
      var n := ProductOf(shape);
      r := new Byte[n * size](i requires 0 <= i < |uninit| => uninit[i]);
      var cont := IsContinuous();
      if cont {
        ContinuousBlock(data.Length, base, shape, size);
        CopyBytes(r, 0, data, base, n * size);
        return;
      }
      UseCopy(r);
    }

    /** Makes r the memory of the array, with the elements copied one by one. */
    method UseCopy(r: array<Byte>)
      requires Valid() && InsideBlock() && |shape| > 0 && r != data && r.Length == Product(shape) * size
      modifies this, r
      ensures Valid() && shape == old(shape) && data == r && base == 0
      ensures strides == CStrides(shape, size) && InsideBlock()
      ensures |shape| != 1 ==> forall idx | InBounds(idx, shape) :: ValueAt(idx) == old(ValueAt(idx))
      ensures |shape| == 1 ==> data[..] == old(r[..])
    {
      CopyElements(r);
      ghost var src, oldStrides, oldBase := data[..], strides, base;
      data, base := r, 0;
      SetCStrides();
      CSlotsFit(shape, size);
      if |shape| != 1 {
        forall idx | InBounds(idx, shape) ensures ValueAt(idx) == old(ValueAt(idx)) {
          SameValue(r[..], src, oldBase, shape, oldStrides, size, idx);
        }
      }
    }

    /** Copies the elements that the iterator visits, one after the other, into r. */
    method CopyElements(r: array<Byte>)
      requires Valid() && InsideBlock() && |shape| > 0
      requires r != data && r.Length == Product(shape) * size
      modifies r
      ensures SlotsCopied(r[..], data[..], base, shape, strides, size, Yields(shape))
      ensures Yields(shape) == 0 ==> r[..] == old(r[..])
    {
      var iter, p := Start();
      var q := 0;
      ghost var m := 0;
      while p.Some?
        invariant fresh(iter) && fresh(iter.ind) && q == m * size && Reached(iter, p, m)
        invariant SlotsCopied(r[..], data[..], base, shape, strides, size, m)
        invariant Yields(shape) == 0 ==> r[..] == old(r[..])
        decreases Yields(shape) - m, p.Some?
      {
        p := CopyAndAdvance(r, iter, q, p.value, m);
        q := q + size;
        m := m + 1;
      }
    }

    method Start() returns (iter: DLiteArrayIter, p: Option<int>)
      requires Valid() && |shape| > 0
      ensures fresh(iter) && fresh(iter.ind) && Reached(iter, p, 0)
    {
      iter := new DLiteArrayIter(this);
      p := iter.Next();
    }

    /** The body of the loop over the elements. */
    method CopyAndAdvance(r: array<Byte>, iter: DLiteArrayIter, q: int, addr: int, ghost m: nat)
      returns (p: Option<int>)
      requires Valid() && InsideBlock() && r != data && r.Length == Product(shape) * size
      requires Reached(iter, Some(addr), m) && q == m * size
      requires SlotsCopied(r[..], data[..], base, shape, strides, size, m)
      modifies r, iter, iter.ind
      ensures iter.ind == old(iter.ind) && Reached(iter, p, m + 1) && q + size == (m + 1) * size
      ensures SlotsCopied(r[..], data[..], base, shape, strides, size, m + 1)
    {
      CopyNext(r, q, addr, m);
      p := iter.Next();
    }

    /** The iterator has returned the address p of element m, or all elements have been returned. */
    ghost predicate Reached(iter: DLiteArrayIter, p: Option<int>, m: nat)
      requires Valid()
      reads this, iter, iter.ind, iter.arr
    {
      && iter.Valid() && iter.arr == this && m <= Yields(shape)
      && if p.Some? then m < Yields(shape) && iter.pos == m + 1 && p.value == SlotAddr(base, shape, strides, m)
         else m >= Yields(shape)
    }

    /** Appends the element at address p, the m-th in row-major order, to the elements copied to r. */
    method CopyNext(r: array<Byte>, q: int, p: int, ghost m: nat)
      requires Valid() && InsideBlock() && r != data && r.Length == Product(shape) * size
      requires m < Product(shape) && q == m * size && p == SlotAddr(base, shape, strides, m)
      requires SlotsCopied(r[..], data[..], base, shape, strides, size, m)
      modifies r
      ensures SlotsCopied(r[..], data[..], base, shape, strides, size, m + 1)
      ensures q + size == (m + 1) * size
    {
      SlotInside(m, Product(shape), size);
      ghost var before := r[..];
      CopyBytes(r, q, data, p, size);
      KeepSlots(before, r[..], data[..], base, shape, strides, size, m);
      MulDistributes(m, 1, size);
    }
  }

  /** Iterator over an array.  `pos` counts the elements returned so far, plus one once the stop
      indicator has been set. */
  class DLiteArrayIter {
    const arr: DLiteArray
    var ind: array<int>
    ghost var pos: nat

    ghost predicate Valid()
      reads this, ind, arr
    {
      arr.Valid() && ind.Length == |arr.shape| && IterState(ind[..], arr.shape, pos)
    }

    constructor (arr: DLiteArray)
      requires arr.Valid() && |arr.shape| > 0
      ensures Valid() && this.arr == arr && pos == 0 && fresh(ind)
    {
      this.arr := arr;
      pos := 0;
      ind := new int[|arr.shape|](i => 0);
      new;
      var last := |arr.shape| - 1;
      ind[last] := ind[last] - 1;
      assert ind[..] == Zeros(last) + [-1];
    }

    /** Address of the next element, or None when the iteration is over, and then forever. */
    method Next() returns (p: Option<int>)
      requires Valid()
      modifies this`pos, ind
      ensures Valid()
      ensures old(pos) < Yields(arr.shape) ==>
        p == Some(SlotAddr(arr.base, arr.shape, arr.strides, old(pos))) && pos == old(pos) + 1
      ensures old(pos) >= Yields(arr.shape) ==> p == None && pos >= Yields(arr.shape)
    {
      var shape := arr.shape;
      if ind[0] < 0 {
        StoppedMeansDone(ind[..], shape, pos);
        return None;
      }
      var m := |shape| - 1;
      while m >= 0
        invariant -1 <= m < |shape| && forall j | m < j < |shape| :: 0 < shape[j]
      {
        if shape[m] <= 0 {
          ProductPositive(shape);
          return None;
        }
        m := m - 1;
      }
      ProductPositive(shape);
      ghost var before, k := ind[..], pos;
      RunningIndex(before, shape, k);
      var n := Advance(ind, shape);
      NextIndex(before, shape, k, n);
      pos := pos + 1;
      if n < 0 {
        ind[0] := -1;
        return None;
      }
      var a := arr.Index(ind);
      return Some(a);
    }
  }

  /** Increments an index tuple in row-major order.  The result is the digit that the carry stopped
      at, or -1 when it ran off the front and all digits are back at zero. */
  method Advance(ind: array<int>, shape: seq<nat>) returns (n: int)
    requires ind.Length == |shape| && forall j | 0 <= j < |shape| :: ind[j] < shape[j]
    modifies ind
    ensures -1 <= n < |shape| && CarryReaches(old(ind[..]), shape, n)
    ensures n >= 0 ==> old(ind[n]) + 1 < shape[n] && ind[..] == Carried(old(ind[..]), n)
    ensures n < 0 ==> ind[..] == Zeros(|shape|)
  {
    n := |shape| - 1;
    ghost var before := ind[..];
    while n >= 0
      invariant -1 <= n < |shape| && CarryReaches(before, shape, n)
      invariant ind[..] == before[..n + 1] + Zeros(|shape| - 1 - n)
    {
      ind[n] := ind[n] + 1;
      if ind[n] < shape[n] { break; }
      ind[n] := 0;
      n := n - 1;
    }
  }

  /** An array in row-major ('C') or transposed ('F') order; None for any other order. */
  method CreateOrder(data: array<Byte>, base: int, size: nat, shape: seq<nat>, order: char)
    returns (r: Option<DLiteArray>)
    ensures r.Some? <==> order == 'C' || order == 'F'
    ensures r.Some? ==> r.value.Valid() && r.value.data == data && r.value.base == base && r.value.size == size
    ensures order == 'C' ==> r.value.shape == shape && r.value.strides == CStrides(shape, size)
    ensures order == 'F' ==> r.value.shape == Reverse(shape) && r.value.strides == Reverse(CStrides(shape, size))
  {
    var arr := new DLiteArray(data, base, size, shape);
    match order
    case 'C' => return Some(arr);
    case 'F' =>
      var arr2 := arr.Transpose();
      return Some(arr2);
    case _ => return None;
  }

  // ----- Iteration -----

  /** Number of elements the iterator returns.  In one dimension the initial index -1 is the stop
      indicator, so nothing is returned. */
  function Yields(shape: seq<nat>): nat {
    if |shape| == 1 then 0 else Product(shape)
  }

  ghost predicate IterState(ind: seq<int>, shape: seq<nat>, pos: nat) {
    && |ind| == |shape| > 0 && pos <= Yields(shape) + 1
    && if pos == 0 then ind == Zeros(|shape| - 1) + [-1]
       else if pos <= Yields(shape) then ind == Unravel(pos - 1, shape)
       else ind[0] == -1
  }

  lemma StoppedMeansDone(ind: seq<int>, shape: seq<nat>, pos: nat)
    requires IterState(ind, shape, pos) && ind[0] < 0
    ensures pos >= Yields(shape)
  {
    if 0 < pos <= Yields(shape) { RavelUnravel(pos - 1, shape); }
  }

  lemma RunningIndex(ind: seq<int>, shape: seq<nat>, pos: nat)
    requires IterState(ind, shape, pos) && ind[0] >= 0 && 0 < Product(shape)
    ensures |shape| >= 2 && pos <= Product(shape)
    ensures forall j | 0 <= j < |shape| :: ind[j] < shape[j]
  {
    if pos == 0 {
      ProductPositive(shape);
    } else if pos <= Yields(shape) {
      RavelUnravel(pos - 1, shape);
    }
  }

  lemma RunningPos(ind: seq<int>, shape: seq<nat>, pos: nat)
    requires IterState(ind, shape, pos) && ind[0] >= 0 && 0 < Product(shape)
    ensures |shape| >= 2 && pos <= Product(shape) == Yields(shape)
    ensures pos == 0 ==> ind == Zeros(|shape| - 1) + [-1]
    ensures pos > 0 ==> ind == Unravel(pos - 1, shape)
  {
    RunningIndex(ind, shape, pos);
  }

  lemma FirstIndex(ind: seq<int>, shape: seq<nat>, n: int)
    requires |shape| >= 1 && 0 < Product(shape) && ind == Zeros(|shape| - 1) + [-1]
    requires -1 <= n < |shape| && CarryReaches(ind, shape, n)
    ensures n == |shape| - 1 && Carried(ind, n) == Unravel(0, shape)
  {
    ProductPositive(shape);
    var last := |shape| - 1;
    assert ind[last] == -1 && ind[last] + 1 != shape[last];
    UnravelZero(shape);
  }

  lemma LaterIndex(ind: seq<int>, shape: seq<nat>, k: nat, n: int)
    requires k < Product(shape) && ind == Unravel(k, shape)
    requires -1 <= n < |shape| && CarryReaches(ind, shape, n) && (n >= 0 ==> ind[n] + 1 < shape[n])
    ensures n >= 0 ==> k + 1 < Product(shape) && Carried(ind, n) == Unravel(k + 1, shape)
    ensures n < 0 ==> k + 1 == Product(shape)
  {
    if n >= 0 { OdometerStep(k, shape, n); } else { OdometerEnd(k, shape); }
  }

  lemma NextIndex(ind: seq<int>, shape: seq<nat>, pos: nat, n: int)
    requires IterState(ind, shape, pos) && ind[0] >= 0 && 0 < Product(shape)
    requires -1 <= n < |shape| && CarryReaches(ind, shape, n)
    requires n >= 0 ==> ind[n] + 1 < shape[n]
    ensures n >= 0 ==> pos < Yields(shape) && Carried(ind, n) == Unravel(pos, shape)
    ensures n < 0 ==> pos == Yields(shape)
  {
    RunningPos(ind, shape, pos);
    NextIndexFrom(ind, shape, pos, n);
  }

  lemma NextIndexFrom(ind: seq<int>, shape: seq<nat>, pos: nat, n: int)
    requires |shape| >= 2 && 0 < Product(shape) && pos <= Product(shape) && |ind| == |shape|
    requires if pos == 0 then ind == Zeros(|shape| - 1) + [-1] else ind == Unravel(pos - 1, shape)
    requires -1 <= n < |shape| && CarryReaches(ind, shape, n)
    requires n >= 0 ==> ind[n] + 1 < shape[n]
    ensures n >= 0 ==> pos < Product(shape) && Carried(ind, n) == Unravel(pos, shape)
    ensures n < 0 ==> pos == Product(shape)
  {
    if pos == 0 { FirstIndex(ind, shape, n); } else { LaterIndex(ind, shape, pos - 1, n); }
  }

  /** The iterator returns every element, each once, in row-major order, exactly for arrays that have
      two or more dimensions or no elements. */
  lemma IteratorIsCompleteIff(shape: seq<nat>)
    requires |shape| > 0
    ensures (forall idx | InBounds(idx, shape) :: IsYielded(idx, shape)) <==> |shape| >= 2 || shape[0] == 0
    ensures forall j: nat, k: nat | j < k < Yields(shape) :: LexLess(Unravel(j, shape), Unravel(k, shape))
  {
    if |shape| >= 2 || shape[0] == 0 {
      forall idx | InBounds(idx, shape) ensures IsYielded(idx, shape) {
        RavelInBounds(idx, shape);
        UnravelRavel(idx, shape);
        assert |shape| >= 2;
      }
    } else {
      assert InBounds([0], shape);
      assert !IsYielded([0], shape);
    }
    forall j: nat, k: nat | j < k < Yields(shape) ensures LexLess(Unravel(j, shape), Unravel(k, shape)) {
      RowMajorIsLexicographic(j, k, shape);
    }
  }

  ghost predicate IsYielded(idx: seq<int>, shape: seq<nat>) {
    exists k: nat :: k < Yields(shape) && Unravel(k, shape) == idx
  }

  ghost predicate LexLess(a: seq<int>, b: seq<int>) {
    a != [] && b != [] && (a[0] < b[0] || (a[0] == b[0] && LexLess(a[1..], b[1..])))
  }

  lemma DivModOrder(j: nat, k: nat, p: nat)
    requires j < k && p > 0
    ensures j / p < k / p || (j / p == k / p && j % p < k % p)
  {
    DivModIdentity(j, p);
    DivModIdentity(k, p);
    if j / p > k / p { MulMonotonic(k / p + 1, j / p, p); MulDistributes(k / p, 1, p); }
  }

  lemma {:induction false} RowMajorIsLexicographic(j: nat, k: nat, shape: seq<nat>)
    requires j < k < Product(shape)
    ensures LexLess(Unravel(j, shape), Unravel(k, shape))
  {
    var p := Product(shape[1..]);
    UnravelSplit(j, shape);
    UnravelSplit(k, shape);
    DivModOrder(j, k, p);
    if j / p == k / p { RowMajorIsLexicographic(j % p, k % p, shape[1..]); }
  }

  // ----- Support for the continuous copy -----

  ghost predicate SlotHolds(dst: seq<Byte>, d: int, src: seq<Byte>, s: int, size: nat) {
    0 <= d <= |dst| - size && 0 <= s <= |src| - size && dst[d..d + size] == src[s..s + size]
  }

  /** The first m elements lie one after the other in dst. */
  ghost predicate SlotsCopied(dst: seq<Byte>, src: seq<Byte>, base: int, shape: seq<nat>, strides: seq<int>,
                              size: nat, m: nat)
    requires |shape| == |strides|
  {
    forall k: nat | k < m :: SlotHolds(dst, k * size, src, SlotAddr(base, shape, strides, k), size)
  }

  /** The element at an index tuple of the copy. */
  lemma SameValue(dst: seq<Byte>, src: seq<Byte>, base: int, shape: seq<nat>, strides: seq<int>, size: nat,
                  idx: seq<int>)
    requires |shape| == |strides| && InBounds(idx, shape)
    requires SlotsCopied(dst, src, base, shape, strides, size, Product(shape))
    ensures 0 <= Ravel(idx, shape) < Product(shape)
    ensures var k := Ravel(idx, shape);
      var a, b := SlotAddr(0, shape, CStrides(shape, size), k), SlotAddr(base, shape, strides, k);
      0 <= a <= |dst| - size && 0 <= b <= |src| - size && dst[a..a + size] == src[b..b + size]
  {
    RavelInBounds(idx, shape);
    CSlotAddr(0, shape, size, Ravel(idx, shape));
    UseSlot(dst, src, base, shape, strides, size, Ravel(idx, shape));
  }

  lemma UseSlot(dst: seq<Byte>, src: seq<Byte>, base: int, shape: seq<nat>, strides: seq<int>, size: nat, k: nat)
    requires |shape| == |strides| && k < Product(shape)
    requires SlotsCopied(dst, src, base, shape, strides, size, Product(shape))
    ensures SlotHolds(dst, k * size, src, SlotAddr(base, shape, strides, k), size)
  {}

  lemma SlotInside(m: nat, n: nat, size: nat)
    requires m < n
    ensures 0 <= m * size && m * size + size <= n * size
  {
    MulMonotonic(m + 1, n, size);
    MulDistributes(m, 1, size);
  }

  lemma ContinuousBlock(length: nat, base: int, shape: seq<nat>, size: nat)
    requires SlotsFit(length, base, shape, CStrides(shape, size), size, Product(shape))
    ensures Product(shape) > 0 ==> 0 <= base && base + Product(shape) * size <= length
  {
    var n := Product(shape);
    if n > 0 {
      CSlotAddr(base, shape, size, 0);
      CSlotAddr(base, shape, size, n - 1);
      assert SlotAddr(base, shape, CStrides(shape, size), 0) >= 0;
      MulDistributes(n - 1, 1, size);
    }
  }

  lemma CSlotsFit(shape: seq<nat>, size: nat)
    ensures SlotsFit(Product(shape) * size, 0, shape, CStrides(shape, size), size, Product(shape))
  {
    forall k: nat | k < Product(shape)
      ensures 0 <= SlotAddr(0, shape, CStrides(shape, size), k) <= Product(shape) * size - size
    {
      CSlotAddr(0, shape, size, k);
      SlotInside(k, Product(shape), size);
    }
  }

  lemma KeepSlots(before: seq<Byte>, after: seq<Byte>, src: seq<Byte>, base: int, shape: seq<nat>,
                  strides: seq<int>, size: nat, m: nat)
    requires |shape| == |strides| && |before| == |after|
    requires 0 <= m * size && m * size + size <= |after|
    requires forall i | 0 <= i < |after| && !(m * size <= i < m * size + size) :: after[i] == before[i]
    requires SlotsCopied(before, src, base, shape, strides, size, m)
    requires SlotHolds(after, m * size, src, SlotAddr(base, shape, strides, m), size)
    ensures SlotsCopied(after, src, base, shape, strides, size, m + 1)
  {
    forall k: nat | k < m ensures SlotHolds(after, k * size, src, SlotAddr(base, shape, strides, k), size) {
      assert SlotHolds(before, k * size, src, SlotAddr(base, shape, strides, k), size);
      SlotInside(k, m, size);
      assert after[k * size..k * size + size] == before[k * size..k * size + size];
    }
  }
}
