/** `dlite_type_ndcast()`: casting one strided array into another.  Two odometers walk the two layouts,
    which may differ in shape, strides and element size. */
module NdCast {
  import opened MixedRadix
  import opened Memory
  import opened Options

  /** Where the elements of an array are. */
  datatype Layout = Layout(base: int, size: nat, dims: seq<nat>, strides: seq<int>) {
    ghost predicate Valid() {
      |dims| == |strides|
    }

    function Count(): nat {
      Product(dims)
    }

    /** Number of elements the element-wise path handles: it always handles the first one. */
    function Visits(): nat {
      if Count() == 0 then 1 else Count()
    }

    function Slot(k: nat): int
      requires Valid()
    {
      SlotAddr(base, dims, strides, k)
    }

    ghost predicate Fits(length: nat)
      requires Valid()
    {
      forall k: nat | k < Visits() :: 0 <= Slot(k) <= length - size
    }

    ghost predicate Disjoint()
      requires Valid()
    {
      forall j: nat, k: nat | j < Visits() && k < Visits() && j != k ::
        Slot(j) + size <= Slot(k) || Slot(k) + size <= Slot(j)
    }

    /** The byte at address i belongs to one of the first m elements. */
    ghost predicate Covers(i: int, m: nat)
      requires Valid()
    {
      exists k: nat :: k < m && Slot(k) <= i < Slot(k) + size
    }
  }

  type Cast = seq<Byte> -> Option<seq<Byte>>

  ghost predicate CastSizes(cast: Cast, from: nat, to: nat) {
    forall b | |b| == from && cast(b).Some? :: |cast(b).value| == to
  }

  ghost predicate ConvertedAt(dst: seq<Byte>, d: Layout, src: seq<Byte>, s: Layout, cast: Cast, k: nat)
    requires d.Valid() && s.Valid()
  {
    && 0 <= d.Slot(k) <= |dst| - d.size && 0 <= s.Slot(k) <= |src| - s.size
    && cast(src[s.Slot(k)..s.Slot(k) + s.size]) == Some(dst[d.Slot(k)..d.Slot(k) + d.size])
  }

  /** The k-th destination element, in row-major order of the destination shape, is the cast of the k-th
      source element, in row-major order of the source shape, for the first m elements. */
  ghost predicate Converted(dst: seq<Byte>, d: Layout, src: seq<Byte>, s: Layout, cast: Cast, m: nat)
    requires d.Valid() && s.Valid()
  {
    forall k: nat | k < m :: ConvertedAt(dst, d, src, s, cast, k)
  }

  ghost predicate FailsAt(src: seq<Byte>, s: Layout, cast: Cast, k: nat)
    requires s.Valid()
  {
    0 <= s.Slot(k) <= |src| - s.size && cast(src[s.Slot(k)..s.Slot(k) + s.size]).None?
  }

  ghost predicate SameOutside(after: seq<Byte>, before: seq<Byte>, d: Layout, m: nat)
    requires d.Valid()
  {
    |after| == |before| && forall i | 0 <= i < |after| && !d.Covers(i, m) :: after[i] == before[i]
  }

  // ----- The element-wise path -----

  method Store(dst: array<Byte>, p: int, bytes: seq<Byte>)
    requires 0 <= p && p + |bytes| <= dst.Length
    modifies dst
    ensures dst[p..p + |bytes|] == bytes
    ensures forall i | 0 <= i < dst.Length && !(p <= i < p + |bytes|) :: dst[i] == old(dst[i])
  {
    var j := 0;
    while j < |bytes|
      invariant 0 <= j <= |bytes| && dst[p..p + j] == bytes[..j]
      invariant forall i | 0 <= i < dst.Length && !(p <= i < p + j) :: dst[i] == old(dst[i])
    {
      dst[p + j] := bytes[j];
      j := j + 1;
    }
    assert bytes[..j] == bytes;
  }

  /** Moves index and pointer to the next element: along the last dimension by its stride, and
      otherwise by carrying and recomputing the pointer from the index. */
  method Step(l: Layout, idx: array<int>, p: int, ghost k: nat) returns (q: int)
    requires l.Valid() && k + 1 < l.Count() && idx.Length == |l.dims|
    requires idx[..] == Unravel(k, l.dims) && p == l.Slot(k)
    modifies idx
    ensures idx[..] == Unravel(k + 1, l.dims) && q == l.Slot(k + 1)
  {
    ghost var before := idx[..];
    RavelUnravel(k, l.dims);
    var last := |l.dims| - 1;
    idx[last] := idx[last] + 1;
    if idx[last] < l.dims[last] {
      assert idx[..] == Carried(before, last);
      OdometerStep(k, l.dims, last);
      DotIncrement(before, l.strides);
      q := p + l.strides[last];
    } else {
      idx[last] := 0;
      var i := CarryOver(idx, l.dims, before);
      CarryLands(k, l.dims, i);
      q := Recompute(l, idx);
    }
  }

  /** Carries out of the last digit.  The result is the digit that absorbed the carry, or -1. */
  method CarryOver(idx: array<int>, dims: seq<nat>, ghost before: seq<int>) returns (i: int)
    requires 0 < idx.Length == |dims| == |before| && InBounds(before, dims)
    requires before[idx.Length - 1] + 1 == dims[idx.Length - 1]
    requires idx[..] == before[idx.Length - 1 := 0]
    modifies idx
    ensures -1 <= i < idx.Length - 1 && CarryReaches(before, dims, i)
    ensures i >= 0 ==> before[i] + 1 < dims[i] && idx[..] == Carried(before, i)
    ensures idx[idx.Length - 1] == 0
  {
    var last := idx.Length - 1;
    i := last - 1;
    while i >= 0
      invariant -1 <= i < last && CarryReaches(before, dims, i)
      invariant idx[..] == before[..i + 1] + Zeros(last - i)
    {
      idx[i] := idx[i] + 1;
      if idx[i] < dims[i] { break; }
      idx[i] := 0;
      i := i - 1;
    }
  }

  /** Before the last element the carry is absorbed. */
  lemma CarryLands(k: nat, dims: seq<nat>, i: int)
    requires k + 1 < Product(dims) && -1 <= i < |dims| && CarryReaches(Unravel(k, dims), dims, i)
    requires i >= 0 ==> Unravel(k, dims)[i] + 1 < dims[i]
    ensures i >= 0 && Unravel(k + 1, dims) == Carried(Unravel(k, dims), i)
  {
    if i >= 0 { OdometerStep(k, dims, i); } else { OdometerEnd(k, dims); }
  }

  /** Pointer of an index tuple whose last digit is zero. */
  method Recompute(l: Layout, idx: array<int>) returns (q: int)
    requires l.Valid() && 0 < idx.Length == |l.dims| && idx[idx.Length - 1] == 0
    ensures q == l.base + Dot(idx[..], l.strides)
  {
    var j, last := 0, |l.dims| - 1;
    q := l.base;
    while j < last
      invariant 0 <= j <= last && q == l.base + Dot(idx[..j], l.strides[..j])
    {
      DotLast(idx[..j + 1], l.strides[..j + 1], j);
      assert idx[..j + 1][..j] == idx[..j] && l.strides[..j + 1][..j] == l.strides[..j];
      q := q + l.strides[j] * idx[j];
      j := j + 1;
    }
    DotLast(idx[..], l.strides, last);
    assert idx[..][..last] == idx[..last];
  }

  lemma DotIncrement(idx: seq<int>, strides: seq<int>)
    requires |idx| == |strides| > 0
    ensures Dot(Carried(idx, |idx| - 1), strides) == Dot(idx, strides) + strides[|idx| - 1]
  {
    var m := |idx| - 1;
    DotLast(idx, strides, m);
    DotLast(Carried(idx, m), strides, m);
    assert Carried(idx, m)[..m] == idx[..m];
    MulDistributes(idx[m], 1, strides[m]);
  }

  /** One cast leaves the earlier elements alone. */
  lemma ConvertOne(before: seq<Byte>, after: seq<Byte>, original: seq<Byte>, d: Layout, src: seq<Byte>, s: Layout,
                   cast: Cast, m: nat)
    requires d.Valid() && s.Valid() && d.Disjoint() && d.Fits(|after|) && m < d.Visits()
    requires Converted(before, d, src, s, cast, m) && SameOutside(before, original, d, m)
    requires |after| == |before| && ConvertedAt(after, d, src, s, cast, m)
    requires forall i | 0 <= i < |after| && !(d.Slot(m) <= i < d.Slot(m) + d.size) :: after[i] == before[i]
    ensures Converted(after, d, src, s, cast, m + 1) && SameOutside(after, original, d, m + 1)
  {
    forall k: nat | k < m ensures ConvertedAt(after, d, src, s, cast, k) {
      assert ConvertedAt(before, d, src, s, cast, k);
      var a := d.Slot(k);
      assert a + d.size <= d.Slot(m) || d.Slot(m) + d.size <= a;
      assert after[a..a + d.size] == before[a..a + d.size];
    }
    forall i | 0 <= i < |after| && !d.Covers(i, m + 1) ensures after[i] == original[i] {
      assert !d.Covers(i, m);
      assert !(m < m + 1 && d.Slot(m) <= i < d.Slot(m) + d.size);
    }
  }

  /** Casts element by element.  `done` is the number of elements cast: all of them on success, and
      those before the first one that the cast refuses otherwise. */
  method ElementWise(dst: array<Byte>, d: Layout, src: array<Byte>, s: Layout, cast: Cast)
    returns (ok: bool, ghost done: nat)
    requires dst != src && d.Valid() && s.Valid() && |d.dims| == |s.dims| > 0 && d.Count() == s.Count()
    requires d.Fits(dst.Length) && s.Fits(src.Length) && d.Disjoint() && CastSizes(cast, s.size, d.size)
    modifies dst
    ensures Converted(dst[..], d, src[..], s, cast, done) && SameOutside(dst[..], old(dst[..]), d, done)
    ensures if ok then done == d.Visits() else done < d.Visits() && FailsAt(src[..], s, cast, done)
  {
    var sidx := new int[|s.dims|](i => 0);
    var didx := new int[|d.dims|](i => 0);
    var sp, dp, n := s.base, d.base, 0;
    var count := ProductOf(d.dims);
    FirstSlot(s, sidx[..]);
    FirstSlot(d, didx[..]);
    ghost var given := src[..];
    while true
      invariant 0 <= n < d.Visits() && src[..] == given
      invariant fresh(sidx) && fresh(didx) && sidx != didx && sidx.Length == didx.Length == |s.dims|
      invariant sidx[..] == Unravel(n, s.dims) && didx[..] == Unravel(n, d.dims)
      invariant sp == s.Slot(n) && dp == d.Slot(n)
      invariant Converted(dst[..], d, given, s, cast, n) && SameOutside(dst[..], old(dst[..]), d, n)
      decreases d.Visits() - n
    {
      ok := CastOne(dst, d, dp, src, s, sp, cast, old(dst[..]), n);
      if !ok { return false, n; }
      n := n + 1;
      if n >= count { break; }
      sp := Step(s, sidx, sp, n - 1);
      dp := Step(d, didx, dp, n - 1);
    }
    return true, n;
  }

  /** Casts element n, whose addresses are sp and dp. */
  method CastOne(dst: array<Byte>, d: Layout, dp: int, src: array<Byte>, s: Layout, sp: int, cast: Cast,
                 ghost original: seq<Byte>, ghost n: nat)
    returns (ok: bool)
    requires dst != src && d.Valid() && s.Valid() && d.Count() == s.Count() && n < d.Visits()
    requires d.Fits(dst.Length) && s.Fits(src.Length) && d.Disjoint() && CastSizes(cast, s.size, d.size)
    requires sp == s.Slot(n) && dp == d.Slot(n)
    requires Converted(dst[..], d, src[..], s, cast, n) && SameOutside(dst[..], original, d, n)
    modifies dst
    ensures ok ==> Converted(dst[..], d, src[..], s, cast, n + 1) && SameOutside(dst[..], original, d, n + 1)
    ensures !ok ==> dst[..] == old(dst[..]) && FailsAt(src[..], s, cast, n)
  {
    var converted := cast(src[sp..sp + s.size]);
    if converted.None? { return false; }
    ghost var before := dst[..];
    Store(dst, dp, converted.value);
    ConvertOne(before, dst[..], original, d, src[..], s, cast, n);
    return true;
  }

  lemma FirstSlot(l: Layout, idx: seq<int>)
    requires l.Valid() && idx == Zeros(|l.dims|)
    ensures idx == Unravel(0, l.dims) && l.Slot(0) == l.base
  {
    UnravelZero(l.dims);
    DotZeros(l.strides);
  }

  // ----- The same-layout shortcut -----

  /** Looks for a stride equal to `size`.  The loop is bounded by `j < dims[j]` instead of the number of
      dimensions; `stray` is what it makes of the memory behind the two arrays. */
  predicate FindStride(l: Layout, size: nat, j: nat, stray: bool)
    requires l.Valid() && j <= |l.dims|
    decreases |l.dims| - j
  {
    if j == |l.dims| then stray
    else j < l.dims[j] && (l.strides[j] == size || FindStride(l, size, j + 1, stray))
  }

  /** The test for contiguous memory, from dimension i on. */
  predicate ContiguityTest(l: Layout, size: nat, i: nat, stray: nat -> bool)
    requires l.Valid() && i <= |l.dims|
    decreases |l.dims| - i
  {
    i == |l.dims| || (FindStride(l, size, 0, stray(i)) && ContiguityTest(l, size * l.dims[i], i + 1, stray))
  }

  /** Whether the loop over the strides finds one of the given size: it looks at stride j as long as all dimensions
      up to j are greater than their number, and otherwise at what comes after the strides. */
  lemma {:induction false} FindStrideIff(l: Layout, size: nat, j: nat, stray: bool)
    requires l.Valid() && j <= |l.dims|
    ensures FindStride(l, size, j, stray) <==>
      || (exists k :: j <= k < |l.dims| && l.strides[k] == size && forall n | j <= n <= k :: n < l.dims[n])
      || (stray && forall n | j <= n < |l.dims| :: n < l.dims[n])
    decreases |l.dims| - j
  {
    if j < |l.dims| { FindStrideIff(l, size, j + 1, stray); }
  }

  /** The layouts that pass the test: for each i there must be a stride of the size of the first i dimensions. */
  lemma {:induction false} ContiguityTestIff(l: Layout, size: nat, i: nat, stray: nat -> bool)
    requires l.Valid() && i <= |l.dims|
    ensures ContiguityTest(l, size, i, stray) <==> forall n | i <= n < |l.dims| ::
      var wanted := size * Product(l.dims[i..n]);
      || (exists k :: 0 <= k < |l.dims| && l.strides[k] == wanted && forall j | 0 <= j <= k :: j < l.dims[j])
      || (stray(n) && forall j | 0 <= j < |l.dims| :: j < l.dims[j])
    decreases |l.dims| - i
  {
    if i < |l.dims| {
      FindStrideIff(l, size, 0, stray(i));
      ContiguityTestIff(l, size * l.dims[i], i + 1, stray);
      forall n | i < n < |l.dims| ensures size * Product(l.dims[i..n]) == size * l.dims[i] * Product(l.dims[i + 1..n]) {
        assert l.dims[i..n][1..] == l.dims[i + 1..n];
        MulAssociates(size, l.dims[i], Product(l.dims[i + 1..n]));
      }
      assert l.dims[i..i] == [];
    }
  }

  /** The arrays are copied in one chunk. */
  predicate Shortcut(d: Layout, s: Layout, sameType: bool, stray: nat -> bool)
    requires d.Valid() && s.Valid()
  {
    && sameType && d.size == s.size && d.dims == s.dims && d.strides == s.strides
    && ContiguityTest(s, s.size, 0, stray)
  }

  /** The shortcut is taken exactly for elements of the same type and size in arrays of the same shape and strides
      that pass the test. */
  lemma ShortcutIsTakenIff(d: Layout, s: Layout, sameType: bool, stray: nat -> bool)
    requires d.Valid() && s.Valid()
    ensures Shortcut(d, s, sameType, stray) <==>
      && sameType && d.size == s.size && d.dims == s.dims && d.strides == s.strides
      && forall i | 0 <= i < |s.dims| ::
        var wanted := s.size * Product(s.dims[..i]);
        || (exists k :: 0 <= k < |s.dims| && s.strides[k] == wanted && forall j | 0 <= j <= k :: j < s.dims[j])
        || (stray(i) && forall j | 0 <= j < |s.dims| :: j < s.dims[j])
  {
    ContiguityTestIff(s, s.size, 0, stray);
    assert forall i | 0 <= i < |s.dims| :: s.dims[0..i] == s.dims[..i];
  }

  method TestLayout(d: Layout, s: Layout, sameType: bool, stray: nat -> bool) returns (same: bool)
    requires d.Valid() && s.Valid() && |d.dims| == |s.dims|
    ensures same == Shortcut(d, s, sameType, stray)
  {
    same := sameType && d.size == s.size;
    var i := 0;
    while same && i < |d.dims|
      invariant 0 <= i <= |d.dims|
      invariant same ==> sameType && d.size == s.size && d.dims[..i] == s.dims[..i] && d.strides[..i] == s.strides[..i]
      invariant !same ==> !(sameType && d.size == s.size && d.dims == s.dims && d.strides == s.strides)
    {
      if d.dims[i] != s.dims[i] || d.strides[i] != s.strides[i] { same := false; }
      i := i + 1;
    }
    assert d.dims[..|d.dims|] == d.dims && s.dims[..|d.dims|] == s.dims;
    assert d.strides[..|d.dims|] == d.strides && s.strides[..|d.dims|] == s.strides;
    var size := s.size;
    i := 0;
    while same && i < |s.dims|
      invariant 0 <= i <= |s.dims|
      invariant same ==> Shortcut(d, s, sameType, stray) == ContiguityTest(s, size, i, stray)
      invariant !same ==> !Shortcut(d, s, sameType, stray)
    {
      var j := 0;
      while j < |s.dims| && j < s.dims[j] && s.strides[j] != size
        invariant 0 <= j <= |s.dims|
        invariant FindStride(s, size, 0, stray(i)) == FindStride(s, size, j, stray(i))
      {
        j := j + 1;
      }
      var found := if j == |s.dims| then stray(i) else j < s.dims[j];
      if !found { same := false; }
      size := size * s.dims[i];
      i := i + 1;
    }
  }

  /** Contents of the destination after the chunk of n bytes has been copied. */
  function Chunk(dst: seq<Byte>, d: int, src: seq<Byte>, s: int, n: nat): (r: seq<Byte>)
    requires 0 <= d && d + n <= |dst| && 0 <= s && s + n <= |src|
    ensures |r| == |dst|
  {
    dst[..d] + src[s..s + n] + dst[d + n..]
  }

  method NdCast(dst: array<Byte>, d: Layout, src: array<Byte>, s: Layout, sameType: bool, cast: Cast,
                stray: nat -> bool) returns (ok: bool, ghost done: nat)
    requires dst != src && d.Valid() && s.Valid() && |d.dims| == |s.dims|
    requires d.Fits(dst.Length) && s.Fits(src.Length) && d.Disjoint() && CastSizes(cast, s.size, d.size)
    requires Shortcut(d, s, sameType, stray) && |d.dims| > 0 ==>
      && 0 <= d.base && d.base + d.Count() * d.size <= dst.Length
      && 0 <= s.base && s.base + d.Count() * d.size <= src.Length
    modifies dst
    ensures d.Count() != s.Count() ==> !ok && dst[..] == old(dst[..])
    ensures d.Count() == s.Count() && |d.dims| > 0 && Shortcut(d, s, sameType, stray) ==>
      ok && dst[..] == Chunk(old(dst[..]), d.base, src[..], s.base, d.Count() * d.size)
    ensures d.Count() == s.Count() && !(Shortcut(d, s, sameType, stray) && |d.dims| > 0) ==>
      && Converted(dst[..], d, src[..], s, cast, done) && SameOutside(dst[..], old(dst[..]), d, done)
      && if ok then done == d.Visits() else done < d.Visits() && FailsAt(src[..], s, cast, done)
  {
    if |d.dims| == 0 {
      ok, done := CastScalar(dst, d, src, s, cast);
      return;
    }
    var nd := ProductOf(d.dims);
    var ns := ProductOf(s.dims);
    if nd != ns { return false, 0; }
    var same := TestLayout(d, s, sameType, stray);
    if same {
      CopyBytes(dst, d.base, src, s.base, nd * s.size);
      ghost var before, after := old(dst[..]), dst[..];
      assert after == Chunk(before, d.base, src[..], s.base, nd * s.size);
      return true, nd;
    }
    ok, done := ElementWise(dst, d, src, s, cast);
  }

  method CastScalar(dst: array<Byte>, d: Layout, src: array<Byte>, s: Layout, cast: Cast)
    returns (ok: bool, ghost done: nat)
    requires dst != src && d.Valid() && s.Valid() && |d.dims| == |s.dims| == 0
    requires d.Fits(dst.Length) && s.Fits(src.Length) && d.Disjoint() && CastSizes(cast, s.size, d.size)
    modifies dst
    ensures Converted(dst[..], d, src[..], s, cast, done) && SameOutside(dst[..], old(dst[..]), d, done)
    ensures if ok then done == d.Visits() else done < d.Visits() && FailsAt(src[..], s, cast, done)
  {
    assert d.Slot(0) == d.base && s.Slot(0) == s.base;
    var converted := cast(src[s.base..s.base + s.size]);
    if converted.None? { return false, 0; }
    ghost var before := dst[..];
    Store(dst, d.base, converted.value);
    ConvertOne(before, dst[..], before, d, src[..], s, cast, 0);
    return true, 1;
  }

  // ----- When the shortcut is right -----

  /** The slots of an array fill the chunk that the shortcut copies. */
  ghost predicate InsideChunk(l: Layout)
    requires l.Valid()
  {
    forall k: nat | k < l.Count() :: l.base <= l.Slot(k) && l.Slot(k) + l.size <= l.base + l.Count() * l.size
  }

  /** Least and greatest offset of an element, from the sizes and strides of the dimensions. */
  function LowOffset(dims: seq<nat>, strides: seq<int>): int
    requires |dims| == |strides|
  {
    if dims == [] then 0
    else (if strides[0] < 0 then (dims[0] - 1) * strides[0] else 0) + LowOffset(dims[1..], strides[1..])
  }

  function HighOffset(dims: seq<nat>, strides: seq<int>): int
    requires |dims| == |strides|
  {
    if dims == [] then 0
    else (if strides[0] > 0 then (dims[0] - 1) * strides[0] else 0) + HighOffset(dims[1..], strides[1..])
  }

  function EndOf(n: nat, last: bool): int {
    if last then n - 1 else 0
  }

  /** The tuple that has the last index where the flag is set, and the first one elsewhere. */
  function Corner(dims: seq<nat>, last: seq<bool>): (idx: seq<int>)
    requires |dims| == |last|
    ensures |idx| == |dims|
  {
    seq(|dims|, i requires 0 <= i < |dims| => EndOf(dims[i], last[i]))
  }

  lemma {:induction false} OffsetsAtCorners(dims: seq<nat>, strides: seq<int>, low: seq<bool>, high: seq<bool>)
    requires |dims| == |strides| == |low| == |high|
    requires forall i | 0 <= i < |dims| :: low[i] == (strides[i] < 0) && high[i] == (strides[i] > 0)
    ensures Dot(Corner(dims, low), strides) == LowOffset(dims, strides)
    ensures Dot(Corner(dims, high), strides) == HighOffset(dims, strides)
    decreases |dims|
  {
    if dims != [] {
      assert Corner(dims, low)[1..] == Corner(dims[1..], low[1..])
        && Corner(dims, high)[1..] == Corner(dims[1..], high[1..]);
      OffsetsAtCorners(dims[1..], strides[1..], low[1..], high[1..]);
    }
  }

  lemma TermBetween(i: int, n: nat, s: int)
    requires 0 <= i < n
    ensures (if s < 0 then (n - 1) * s else 0) <= i * s <= if s > 0 then (n - 1) * s else 0
  {
    if s >= 0 {
      MulMonotonic(0, i, s);
      MulMonotonic(i, n - 1, s);
    } else {
      MulMonotonic(0, i, -s);
      MulMonotonic(i, n - 1, -s);
      assert i * -s == -(i * s) && (n - 1) * -s == -((n - 1) * s);
    }
  }

  lemma {:induction false} OffsetsBetween(idx: seq<int>, dims: seq<nat>, strides: seq<int>)
    requires |dims| == |strides| && InBounds(idx, dims)
    ensures LowOffset(dims, strides) <= Dot(idx, strides) <= HighOffset(dims, strides)
    decreases |dims|
  {
    if dims != [] {
      TermBetween(idx[0], dims[0], strides[0]);
      OffsetsBetween(idx[1..], dims[1..], strides[1..]);
    }
  }

  /** The offsets of all elements are inside the chunk. */
  predicate OffsetsInChunk(l: Layout)
    requires |l.dims| == |l.strides|
  {
    l.Count() == 0 || (LowOffset(l.dims, l.strides) >= 0
      && HighOffset(l.dims, l.strides) + l.size <= l.Count() * l.size)
  }

  lemma CornerIsSlot(l: Layout, last: seq<bool>) returns (k: nat)
    requires l.Valid() && l.Count() > 0 && |last| == |l.dims|
    ensures k < l.Count() && l.Slot(k) == l.base + Dot(Corner(l.dims, last), l.strides)
  {
    var idx := Corner(l.dims, last);
    ProductPositive(l.dims);
    RavelInBounds(idx, l.dims);
    UnravelRavel(idx, l.dims);
    k := Ravel(idx, l.dims);
  }

  /** The slots are inside the chunk exactly if the extreme offsets are. */
  lemma InsideChunkIff(l: Layout)
    requires l.Valid()
    ensures InsideChunk(l) <==> OffsetsInChunk(l)
  {
    if l.Count() > 0 {
      var low := seq(|l.dims|, i requires 0 <= i < |l.dims| => l.strides[i] < 0);
      var high := seq(|l.dims|, i requires 0 <= i < |l.dims| => l.strides[i] > 0);
      OffsetsAtCorners(l.dims, l.strides, low, high);
      var j := CornerIsSlot(l, low);
      var k := CornerIsSlot(l, high);
      if InsideChunk(l) {
        assert l.base <= l.Slot(j) && l.Slot(k) + l.size <= l.base + l.Count() * l.size;
      }
      if OffsetsInChunk(l) {
        forall n: nat | n < l.Count() ensures l.base <= l.Slot(n) && l.Slot(n) + l.size <= l.base + l.Count() * l.size {
          RavelUnravel(n, l.dims);
          OffsetsBetween(Unravel(n, l.dims), l.dims, l.strides);
        }
      }
    }
  }

  /** Copying the chunk copies every element, whatever the memory holds, exactly when the extreme offsets, which
      follow from sizes and strides, are inside the chunk. */
  lemma ShortcutIsRightIff(d: Layout, s: Layout, dstLength: nat, srcLength: nat)
    requires d.Valid() && s.Valid() && d.dims == s.dims && d.strides == s.strides && d.size == s.size > 0
    requires d.Fits(dstLength) && s.Fits(srcLength)
    requires 0 <= d.base && d.base + d.Count() * d.size <= dstLength
    requires 0 <= s.base && s.base + d.Count() * d.size <= srcLength
    ensures (forall dst: seq<Byte>, src: seq<Byte> | |dst| == dstLength && |src| == srcLength ::
              Converted(Chunk(dst, d.base, src, s.base, d.Count() * d.size), d, src, s, Identity, d.Count()))
       <==> OffsetsInChunk(d)
  {
    InsideChunkIff(d);
    ChunkIsRightIff(d, s, dstLength, srcLength);
  }

  /** Copying the chunk copies every element exactly when every slot lies inside the chunk. */
  lemma ChunkIsRightIff(d: Layout, s: Layout, dstLength: nat, srcLength: nat)
    requires d.Valid() && s.Valid() && d.dims == s.dims && d.strides == s.strides && d.size == s.size > 0
    requires d.Fits(dstLength) && s.Fits(srcLength)
    requires 0 <= d.base && d.base + d.Count() * d.size <= dstLength
    requires 0 <= s.base && s.base + d.Count() * d.size <= srcLength
    ensures (forall dst: seq<Byte>, src: seq<Byte> | |dst| == dstLength && |src| == srcLength ::
              Converted(Chunk(dst, d.base, src, s.base, d.Count() * d.size), d, src, s, Identity, d.Count()))
       <==> InsideChunk(d)
  {
    if InsideChunk(d) {
      forall dst: seq<Byte>, src: seq<Byte> | |dst| == dstLength && |src| == srcLength
        ensures Converted(Chunk(dst, d.base, src, s.base, d.Count() * d.size), d, src, s, Identity, d.Count())
      {
        forall k: nat | k < d.Count()
          ensures ConvertedAt(Chunk(dst, d.base, src, s.base, d.Count() * d.size), d, src, s, Identity, k)
        {
          InsideIsCopied(d, s, dst, src, k);
        }
      }
    } else {
      var k: nat :| k < d.Count()
        && !(d.base <= d.Slot(k) && d.Slot(k) + d.size <= d.base + d.Count() * d.size);
      var dst: seq<Byte>, src: seq<Byte> := seq(dstLength, _ => 0), seq(srcLength, _ => 1);
      OutsideIsMissed(d, s, dst, src, k);
      assert !Converted(Chunk(dst, d.base, src, s.base, d.Count() * d.size), d, src, s, Identity, d.Count());
    }
  }

  function Identity(bytes: seq<Byte>): Option<seq<Byte>> {
    Some(bytes)
  }

  lemma InsideIsCopied(d: Layout, s: Layout, dst: seq<Byte>, src: seq<Byte>, k: nat)
    requires d.Valid() && s.Valid() && d.dims == s.dims && d.strides == s.strides && d.size == s.size
    requires d.Fits(|dst|) && s.Fits(|src|) && k < d.Count() && InsideChunk(d)
    requires 0 <= d.base && d.base + d.Count() * d.size <= |dst|
    requires 0 <= s.base && s.base + d.Count() * d.size <= |src|
    ensures ConvertedAt(Chunk(dst, d.base, src, s.base, d.Count() * d.size), d, src, s, Identity, k)
  {
    var n, o := d.Count() * d.size, d.Slot(k) - d.base;
    assert d.base <= d.Slot(k) && o + d.size <= n && s.Slot(k) == s.base + o;
    SliceOfChunk(dst, d.base, src, s.base, n, o, d.size);
    assert 0 <= d.Slot(k) <= |dst| - d.size && 0 <= s.Slot(k) <= |src| - s.size;
  }

  lemma SliceOfChunk(dst: seq<Byte>, d: int, src: seq<Byte>, s: int, n: nat, o: nat, size: nat)
    requires 0 <= d && d + n <= |dst| && 0 <= s && s + n <= |src| && o + size <= n
    ensures Chunk(dst, d, src, s, n)[d + o..d + o + size] == src[s + o..s + o + size]
  {
    var c := Chunk(dst, d, src, s, n);
    var x, y := c[d + o..d + o + size], src[s + o..s + o + size];
    forall i | 0 <= i < size ensures x[i] == y[i] {
      assert c[d + o + i] == src[s + o + i];
    }
  }

  lemma OutsideIsMissed(d: Layout, s: Layout, dst: seq<Byte>, src: seq<Byte>, k: nat)
    requires d.Valid() && s.Valid() && d.dims == s.dims && d.strides == s.strides && d.size == s.size > 0
    requires d.Fits(|dst|) && s.Fits(|src|) && k < d.Count()
    requires 0 <= d.base && d.base + d.Count() * d.size <= |dst|
    requires 0 <= s.base && s.base + d.Count() * d.size <= |src|
    requires !(d.base <= d.Slot(k) && d.Slot(k) + d.size <= d.base + d.Count() * d.size)
    requires (forall i | 0 <= i < |dst| :: dst[i] == 0) && forall i | 0 <= i < |src| :: src[i] == 1
    ensures !ConvertedAt(Chunk(dst, d.base, src, s.base, d.Count() * d.size), d, src, s, Identity, k)
  {
    var n, a, b := d.Count() * d.size, d.Slot(k), s.Slot(k);
    var after := Chunk(dst, d.base, src, s.base, n);
    assert 0 <= a <= |dst| - d.size && 0 <= b <= |src| - s.size;
    var j := if a < d.base then 0 else d.size - 1;
    assert after[a + j] == 0 && src[b + j] == 1;
    ByteDiffers(after, a, src, b, d.size, j);
  }

  lemma ByteDiffers(x: seq<Byte>, a: nat, y: seq<Byte>, b: nat, size: nat, j: nat)
    requires a + size <= |x| && b + size <= |y| && j < size && x[a + j] != y[b + j]
    ensures x[a..a + size] != y[b..b + size]
  {
    assert x[a..a + size][j] == x[a + j] && y[b..b + size][j] == y[b + j];
  }

  /** The shortcut is taken for a row of two elements that are 100 bytes apart, and then copies only the
      first of them. */
  lemma ShortcutExample(stray: nat -> bool)
    ensures var l := Layout(0, 1, [1, 2], [1, 100]);
      Shortcut(l, l, true, stray) && l.Count() == 2 && l.Slot(1) == 100 && !InsideChunk(l)
  {
    var l := Layout(0, 1, [1, 2], [1, 100]);
    assert FindStride(l, 1, 0, stray(0)) && FindStride(l, 1, 0, stray(1));
    assert ContiguityTest(l, 1, 2, stray);
    assert l.dims[1..] == [2] && [2][1..] == [];
    assert Product([2]) == 2 && Product(l.dims) == 2;
    assert Unravel(1, [2]) == [1];
    assert Unravel(1, l.dims) == [0, 1];
    assert l.strides[1..] == [100] && [0, 1][1..] == [1];
    assert Dot([1], [100]) == 100;
  }
}
