/** `dlite_array_slice()`: index conversion through size_t, element counts and the addresses of the
    elements of a slice. */
module Slices {
  import opened MixedRadix
  import opened Memory
  import opened Options
  import opened Arrays

  const SIZE_T: nat := 0x1_0000_0000_0000_0000
  const INT_MAX: int := 0x7FFF_FFFF

  predicate IsInt(x: int) {
    -INT_MAX <= x <= INT_MAX
  }

  /** Conversion of an int to size_t. */
  function SizeT(x: int): (r: nat)
    requires IsInt(x)
  {
    if x < 0 then x + SIZE_T else x
  }

  /** x - 1 on size_t. */
  function Pred(x: nat): nat {
    if x == 0 then SIZE_T - 1 else x - 1
  }

  /** Conversion of a size_t to int: the low 32 bits in two's complement. */
  function ToInt(x: nat): int {
    var low := x % 0x1_0000_0000;
    if low > INT_MAX then low - 0x1_0000_0000 else low
  }

  /** `x % shape` with an int x and a size_t shape: x is converted before the remainder is taken. */
  function IndexMod(x: int, n: nat): nat
    requires IsInt(x) && n > 0
  {
    SizeT(x) % n
  }

  /** Division of ints, truncating toward zero. */
  function TruncDiv(a: int, b: nat): int
    requires b > 0
  {
    if a >= 0 then a / b else -((-a) / b)
  }

  function Abs(x: int): nat {
    if x > 0 then x else -x
  }

  /** One dimension of the slice: its size in the parent, the optional start and stop, and the step. */
  datatype Cut = Cut(n: nat, start: Option<int>, stop: Option<int>, step: int) {
    /** The remainder by the dimension size needs a non-empty dimension. */
    ghost predicate Defined() {
      && n <= INT_MAX && IsInt(step)
      && (start.Some? ==> n > 0 && IsInt(start.value)) && (stop.Some? ==> n > 0 && IsInt(stop.value))
    }

    /** Index of the first element taken. */
    function First(): int
      requires Defined()
    {
      var s := if step > 0 then (if start.Some? then ToInt(IndexMod(start.value, n)) else 0)
               else ToInt(Pred(if start.Some? then IndexMod(start.value, n) else n));
      if s < 0 then s + n else s
    }

    /** Index that bounds the range at its far end (inclusive). */
    function Last(): int
      requires Defined()
    {
      var s := if step > 0 then ToInt(Pred(if stop.Some? then IndexMod(stop.value, n) else n))
               else (if stop.Some? then ToInt(IndexMod(stop.value, n)) else 0);
      if s < 0 then s + n else s
    }

    function Length(): nat
      requires Defined()
    {
      Abs(Last() - First()) + 1
    }

    /** Number of elements taken. */
    function Count(): nat
      requires Defined() && step != 0
    {
      RoundedCount(Length(), step)
    }

    /** The range runs in the direction of the step. */
    ghost predicate Oriented()
      requires Defined()
    {
      if step > 0 then First() <= Last() else Last() <= First()
    }
  }

  /** The element count of a range of the given length: rounded, with half a step that truncates
      toward zero. */
  function RoundedCount(length: nat, step: int): (r: nat)
    requires step != 0
  {
    var half := if step > 0 then step / 2 else -((-step) / 2);
    CountIsNat(length + half, Abs(step));
    TruncDiv(length + half, Abs(step))
  }

  lemma CountIsNat(a: int, d: int)
    requires -d < a && d > 0
    ensures TruncDiv(a, d) >= 0
  {
    if a < 0 {
      DivModUnique(0, d, -a);
    } else {
      QuotientIsNat(a, d);
    }
  }

  /** The cut of dimension i. */
  function CutAt(shape: seq<nat>, start: Option<seq<int>>, stop: Option<seq<int>>, step: Option<seq<int>>, i: nat): Cut
    requires i < |shape|
    requires start.Some? ==> |start.value| == |shape|
    requires stop.Some? ==> |stop.value| == |shape|
    requires step.Some? ==> |step.value| == |shape|
  {
    Cut(shape[i], if start.Some? then Some(start.value[i]) else None,
        if stop.Some? then Some(stop.value[i]) else None, if step.Some? then step.value[i] else 1)
  }

  /** All dimensions of a slice. */
  function Cuts(shape: seq<nat>, start: Option<seq<int>>, stop: Option<seq<int>>, step: Option<seq<int>>)
    : (cuts: seq<Cut>)
    requires start.Some? ==> |start.value| == |shape|
    requires stop.Some? ==> |stop.value| == |shape|
    requires step.Some? ==> |step.value| == |shape|
    ensures |cuts| == |shape|
  {
    seq(|shape|, i requires 0 <= i < |shape| => CutAt(shape, start, stop, step, i))
  }

  ghost predicate AllDefined(cuts: seq<Cut>) {
    forall c | c in cuts :: c.Defined()
  }

  ghost predicate Sliceable(cuts: seq<Cut>) {
    forall c | c in cuts :: c.Defined() && c.step != 0
  }

  /** A view of the selected elements, or None if some step is zero. */
  method Slice(arr: DLiteArray, start: Option<seq<int>>, stop: Option<seq<int>>, step: Option<seq<int>>)
    returns (r: Option<DLiteArray>)
    requires arr.Valid()
    requires start.Some? ==> |start.value| == |arr.shape|
    requires stop.Some? ==> |stop.value| == |arr.shape|
    requires step.Some? ==> |step.value| == |arr.shape|
    requires AllDefined(Cuts(arr.shape, start, stop, step))
    ensures r.Some? <==> Sliceable(Cuts(arr.shape, start, stop, step))
    ensures r.Some? ==> fresh(r.value) && IsSlice(arr, Cuts(arr.shape, start, stop, step), r.value)
  {
    r := SliceBy(arr, Cuts(arr.shape, start, stop, step));
  }

  ghost predicate IsSlice(arr: DLiteArray, cuts: seq<Cut>, view: DLiteArray)
    reads arr, view
  {
    && arr.Valid() && view.Valid() && view.data == arr.data && view.size == arr.size
    && |cuts| == |arr.shape| && AllDefined(cuts) && Sliceable(cuts)
    && view.shape == Counts(cuts)
    && view.strides == Scaled(CStrides(arr.shape, arr.size), cuts)
    && view.base == arr.base + Dot(Firsts(cuts), arr.strides)
  }

  method SliceBy(arr: DLiteArray, cuts: seq<Cut>) returns (r: Option<DLiteArray>)
    requires arr.Valid() && |cuts| == |arr.shape| && AllDefined(cuts)
    ensures r.Some? <==> Sliceable(cuts)
    ensures r.Some? ==> fresh(r.value) && IsSlice(arr, cuts, r.value)
  {
    var view := new DLiteArray(arr.data, arr.base, arr.size, arr.shape);
    var n, offset := |arr.shape| - 1, 0;
    ghost var cs := view.strides;
    while n >= 0
      invariant -1 <= n < |arr.shape| == |view.shape| == |view.strides|
      invariant view.data == arr.data
      invariant view.shape[..n + 1] == arr.shape[..n + 1] && view.strides[..n + 1] == cs[..n + 1]
      invariant Sliceable(cuts[n + 1..])
      invariant view.shape[n + 1..] == Counts(cuts[n + 1..])
      invariant view.strides[n + 1..] == Scaled(cs[n + 1..], cuts[n + 1..])
      invariant offset == Dot(Firsts(cuts[n + 1..]), arr.strides[n + 1..])
    {
      var c := cuts[n];
      assert c in cuts;
      if c.step == 0 { return None; }
      AddCut(cuts, arr.strides, cs, n);
      Prepend(view.shape, n, c.Count(), arr.shape);
      Prepend(view.strides, n, cs[n] * c.step, cs);
      offset := offset + c.First() * arr.strides[n];
      view.shape := view.shape[n := c.Count()];
      view.strides := view.strides[n := view.strides[n] * c.step];
      n := n - 1;
    }
    assert cuts[0..] == cuts && arr.strides[0..] == arr.strides && cs[0..] == cs;
    assert view.shape[0..] == view.shape && view.strides[0..] == view.strides;
    view.base := arr.base + offset;
    return Some(view);
  }

  lemma Prepend<T>(s: seq<T>, n: nat, x: T, original: seq<T>)
    requires n < |s| == |original| && s[..n + 1] == original[..n + 1]
    ensures s[n] == original[n] && s[n := x][..n] == original[..n] && s[n := x][n..] == [x] + s[n + 1..]
  {
    assert s[n] == s[..n + 1][n] && original[n] == original[..n + 1][n];
    assert s[n := x][..n] == s[..n + 1][..n] && original[..n] == original[..n + 1][..n];
  }

  lemma AddCut(cuts: seq<Cut>, strides: seq<int>, cs: seq<int>, n: nat)
    requires n < |cuts| == |strides| == |cs| && AllDefined(cuts) && cuts[n].step != 0 && Sliceable(cuts[n + 1..])
    ensures Sliceable(cuts[n..])
    ensures Counts(cuts[n..]) == [cuts[n].Count()] + Counts(cuts[n + 1..])
    ensures Scaled(cs[n..], cuts[n..]) == [cs[n] * cuts[n].step] + Scaled(cs[n + 1..], cuts[n + 1..])
    ensures Dot(Firsts(cuts[n..]), strides[n..])
         == cuts[n].First() * strides[n] + Dot(Firsts(cuts[n + 1..]), strides[n + 1..])
  {
    assert cuts[n..] == [cuts[n]] + cuts[n + 1..] && cuts[n] in cuts;
    assert strides[n..] == [strides[n]] + strides[n + 1..];
    assert Firsts(cuts[n..]) == [cuts[n].First()] + Firsts(cuts[n + 1..]);
    DotCons(cuts[n].First(), Firsts(cuts[n + 1..]), strides[n], strides[n + 1..]);
  }

  function Counts(cuts: seq<Cut>): (r: seq<nat>)
    requires Sliceable(cuts)
    ensures |r| == |cuts|
  {
    seq(|cuts|, i requires 0 <= i < |cuts| => cuts[i].Count())
  }

  function Firsts(cuts: seq<Cut>): (r: seq<int>)
    requires AllDefined(cuts)
    ensures |r| == |cuts|
  {
    seq(|cuts|, i requires 0 <= i < |cuts| => cuts[i].First())
  }

  function Scaled(strides: seq<int>, cuts: seq<Cut>): (r: seq<int>)
    requires |strides| == |cuts|
    ensures |r| == |cuts|
  {
    seq(|cuts|, i requires 0 <= i < |cuts| => strides[i] * cuts[i].step)
  }

  lemma DotCons(a: int, idx: seq<int>, s: int, strides: seq<int>)
    requires |idx| == |strides|
    ensures Dot([a] + idx, [s] + strides) == a * s + Dot(idx, strides)
  {
    assert ([a] + idx)[1..] == idx && ([s] + strides)[1..] == strides;
  }

  // ----- Index conversion -----

  lemma ToIntOfSmall(x: nat)
    ensures x <= INT_MAX ==> ToInt(x) == x
    ensures ToInt(SIZE_T - 1) == -1
  {
    if x <= INT_MAX { DivModUnique(0, 0x1_0000_0000, x); }
  }

  /** The documented meaning of a negative index, "-k is equivalent to n-k", holds exactly for
      dimension sizes that divide 2^64. */
  lemma NegativeIndexIff(n: nat, k: int)
    requires 1 <= k <= n <= INT_MAX
    ensures IndexMod(-k, n) == n - k <==> SIZE_T % n == 0
  {
    var q, r := SIZE_T / n, SIZE_T % n;
    assert SIZE_T == q * n + r;
    if r >= k {
      DivModUnique(q, n, r - k);
    } else {
      MulDistributes(q, -1, n);
      if r == 0 && k == n {
        DivModUnique(q - 1, n, 0);
      } else {
        DivModUnique(q - 1, n, r + n - k);
      }
    }
  }

  /** Index -1 of a dimension of size 3 selects element 0 rather than element 2. */
  lemma NegativeIndexExample()
    ensures IndexMod(-1, 3) == 0
  {}

  /** With start < stop inside the dimension the bounds are the documented ones.  For positive steps
      stop == n wraps to 0 and back to n-1; for negative steps start == n does. */
  lemma BoundsAreDocumented(c: Cut)
    requires c.Defined() && c.step != 0 && c.n > 0
    requires var lo, hi := if c.step > 0 then c.start else c.stop, if c.step > 0 then c.stop else c.start;
      && (lo.Some? ==> 0 <= lo.value < c.n) && (hi.Some? ==> 1 <= hi.value <= c.n)
      && (if lo.Some? then lo.value else 0) < (if hi.Some? then hi.value else c.n)
    ensures c.step > 0 ==>
      && c.First() == (if c.start.Some? then c.start.value else 0)
      && c.Last() == (if c.stop.Some? then c.stop.value else c.n) - 1
    ensures c.step < 0 ==>
      && c.First() == (if c.start.Some? then c.start.value else c.n) - 1
      && c.Last() == (if c.stop.Some? then c.stop.value else 0)
    ensures c.Oriented()
  {
    var lo := if c.step > 0 then c.start else c.stop;
    var hi := if c.step > 0 then c.stop else c.start;
    if lo.Some? { LowBound(lo.value, c.n); }
    if hi.Some? { HighBound(hi.value, c.n); } else { ToIntOfSmall(c.n - 1); }
  }

  lemma LowBound(v: int, n: nat)
    requires 0 <= v < n <= INT_MAX
    ensures ToInt(IndexMod(v, n)) == v
  {
    DivModUnique(0, n, v);
    ToIntOfSmall(v);
  }

  lemma HighBound(v: int, n: nat)
    requires 1 <= v <= n <= INT_MAX
    ensures var s := ToInt(Pred(IndexMod(v, n))); (if s < 0 then s + n else s) == v - 1
  {
    if v == n { DivModUnique(1, n, 0); } else { DivModUnique(0, n, v); }
    ToIntOfSmall(v - 1);
  }

  // ----- Element counts -----

  function CeilDiv(a: nat, b: nat): nat
    requires b > 0
  {
    (a + b - 1) / b
  }

  /** The rounded count is the number of elements start, start+step, ... within the range exactly when
      the step is -1, or it is positive and the incomplete last stride, if any, is at least half a step. */
  lemma RoundedCountIff(l: nat, d: int)
    requires l > 0 && d != 0
    ensures RoundedCount(l, d) == CeilDiv(l, Abs(d)) <==> d == -1 || (d > 0 && (l % d == 0 || l % d + d / 2 >= d))
  {
    var a := Abs(d);
    var q, r := l / a, l % a;
    CeilOf(q, a, r);
    assert l == q * a + r;
    if d > 0 { CountUp(q, d, r); } else { CountDown(q, a, r); }
  }

  lemma CountUp(q: nat, d: nat, r: nat)
    requires d > 0 && r < d
    ensures RoundedCount(q * d + r, d) == if r + d / 2 >= d then q + 1 else q
  {
    MulDistributes(q, 1, d);
    if r + d / 2 >= d { DivModUnique(q + 1, d, r + d / 2 - d); } else { DivModUnique(q, d, r + d / 2); }
  }

  lemma CountDown(q: nat, d: nat, r: nat)
    requires d > 0 && r < d && q + r > 0
    ensures RoundedCount(q * d + r, -(d as int)) == if r >= d / 2 then q else if q == 0 then 0 else q - 1
  {
    var h := d / 2;
    if r >= h {
      DivModUnique(q, d, r - h);
    } else if q == 0 {
      DivModUnique(0, d, h - r);
    } else {
      MulDistributes(q, -1, d);
      MulMonotonic(0, q - 1, d);
      DivModUnique(q - 1, d, r + d - h);
    }
  }

  lemma CeilOf(q: nat, d: nat, r: nat)
    requires r < d
    ensures CeilDiv(q * d + r, d) == if r == 0 then q else q + 1
  {
    MulDistributes(q, 1, d);
    if r == 0 { DivModUnique(q, d, d - 1); } else { DivModUnique(q + 1, d, r - 1); }
  }

  // ----- Slices stay inside their parents -----

  function Stepped(first: int, i: int, d: int): int {
    first + i * d
  }

  /** Index in the parent of element i of the slice. */
  function ParentIndex(c: Cut, i: int): int
    requires c.Defined()
  {
    Stepped(c.First(), i, c.step)
  }

  ghost predicate Between(x: int, a: int, b: int) {
    a <= x <= b || b <= x <= a
  }

  lemma CountBound(q: nat, r: nat, d: int)
    requires d != 0 && r < Abs(d) && q * Abs(d) + r > 0
    ensures var count := RoundedCount(q * Abs(d) + r, d); count <= q + 1 && (count == q + 1 ==> r > 0)
  {
    if d > 0 { CountUp(q, d, r); } else { CountDown(q, Abs(d), r); }
  }

  /** The last element does not step over the far bound. */
  lemma StepsStayWithin(q: nat, r: nat, d: int)
    requires d != 0 && r < Abs(d) && q * Abs(d) + r > 0
    ensures (RoundedCount(q * Abs(d) + r, d) - 1) * Abs(d) <= q * Abs(d) + r - 1
  {
    CountBound(q, r, d);
    LastStep(q, Abs(d), r, RoundedCount(q * Abs(d) + r, d));
  }

  lemma LastStep(q: nat, a: nat, r: nat, count: nat)
    requires r < a && count <= q + 1 && (count == q + 1 ==> r > 0)
    ensures (count - 1) * a <= q * a + r - 1
  {
    MulDistributes(q, -1, a);
    if count <= q { MulMonotonic(count - 1, q - 1, a); }
  }

  /** Every element of a dimension lies between its bounds exactly when the range runs in the direction
      of the step, or has at most one element. */
  lemma SliceBetweenBoundsIff(c: Cut)
    requires c.Defined() && c.step != 0
    ensures (forall i | 0 <= i < c.Count() :: Between(ParentIndex(c, i), c.First(), c.Last()))
       <==> c.Oriented() || c.Count() <= 1
  {
    StepsBetweenIff(c.First(), c.Last(), c.step, c.Count());
    assert forall i :: ParentIndex(c, i) == Stepped(c.First(), i, c.step);
  }

  lemma SpanBound(l: nat, d: int)
    requires d != 0 && l > 0
    ensures (RoundedCount(l, d) - 1) * Abs(d) <= l - 1
  {
    DivModIdentity(l, Abs(d));
    QuotientIsNat(l, Abs(d));
    StepsStayWithin(l / Abs(d), l % Abs(d), d);
  }

  lemma StepBetween(first: int, last: int, d: int, count: nat, i: nat)
    requires d != 0 && i < count && (count - 1) * Abs(d) <= Abs(last - first)
    requires (if d > 0 then first <= last else last <= first) || count <= 1
    ensures Between(Stepped(first, i, d), first, last)
  {
    MulMonotonic(i, count - 1, Abs(d));
    MulMonotonic(0, i, Abs(d));
    assert d < 0 ==> i * d == -(i * Abs(d));
  }

  lemma StepsBetweenIff(first: int, last: int, d: int, count: nat)
    requires d != 0 && count == RoundedCount(Abs(last - first) + 1, d)
    ensures (forall i | 0 <= i < count :: Between(Stepped(first, i, d), first, last))
       <==> (if d > 0 then first <= last else last <= first) || count <= 1
  {
    SpanBound(Abs(last - first) + 1, d);
    if (if d > 0 then first <= last else last <= first) || count <= 1 {
      forall i | 0 <= i < count ensures Between(Stepped(first, i, d), first, last) {
        StepBetween(first, last, d, count, i);
      }
    } else {
      assert !Between(Stepped(first, 1, d), first, last);
    }
  }

  /** Index tuple in the parent of an element of the slice. */
  function ParentTuple(cuts: seq<Cut>, idx: seq<int>): (r: seq<int>)
    requires AllDefined(cuts) && |idx| == |cuts|
    ensures |r| == |cuts|
  {
    seq(|cuts|, i requires 0 <= i < |cuts| => ParentIndex(cuts[i], idx[i]))
  }

  lemma {:induction false} DotParentTuple(cuts: seq<Cut>, idx: seq<int>, strides: seq<int>)
    requires AllDefined(cuts) && |idx| == |cuts| == |strides|
    ensures Dot(ParentTuple(cuts, idx), strides) == Dot(Firsts(cuts), strides) + Dot(idx, Scaled(strides, cuts))
  {
    if cuts != [] {
      var t := cuts[1..];
      assert cuts[0] in cuts && forall c | c in t :: c in cuts;
      DotParentTuple(t, idx[1..], strides[1..]);
      assert ParentTuple(cuts, idx)[1..] == ParentTuple(t, idx[1..]);
      assert Firsts(cuts)[1..] == Firsts(t);
      assert Scaled(strides, cuts)[1..] == Scaled(strides[1..], t);
      SplitTerm(cuts[0].First(), idx[0], cuts[0].step, strides[0]);
    }
  }

  lemma SplitTerm(f: int, i: int, d: int, s: int)
    ensures (f + i * d) * s == f * s + i * (s * d)
  {
    MulDistributes(f, i * d, s);
    assert (i * d) * s == i * (s * d);
  }

  /** Unit index tuple. */
  function Unit(n: nat, i: nat): (r: seq<int>)
    ensures |r| == n
  {
    seq(n, j => if j == i then 1 else 0)
  }

  lemma {:induction false} DotUnit(strides: seq<int>, i: nat)
    requires i < |strides|
    ensures Dot(Unit(|strides|, i), strides) == strides[i]
  {
    if i == 0 {
      assert Unit(|strides|, 0)[1..] == Zeros(|strides[1..]|);
      DotZeros(strides[1..]);
    } else {
      assert Unit(|strides|, i)[1..] == Unit(|strides[1..]|, i - 1);
      DotUnit(strides[1..], i - 1);
    }
  }

  lemma {:induction false} DotAgrees(idx: seq<int>, a: seq<int>, b: seq<int>)
    requires |idx| == |a| == |b| && forall i | 0 <= i < |idx| :: idx[i] == 0 || a[i] == b[i]
    ensures Dot(idx, a) == Dot(idx, b)
  {
    if idx != [] {
      forall i | 0 <= i < |idx[1..]| ensures idx[1..][i] == 0 || a[1..][i] == b[1..][i] {
        assert idx[i + 1] == 0 || a[i + 1] == b[i + 1];
      }
      DotAgrees(idx[1..], a[1..], b[1..]);
    }
  }

  /** Address of an element of the slice returned by `Slice`. */
  function SliceAddr(base: int, shape: seq<nat>, strides: seq<int>, size: nat, cuts: seq<Cut>, idx: seq<int>): int
    requires |shape| == |strides| == |cuts| == |idx| && AllDefined(cuts)
  {
    base + Dot(Firsts(cuts), strides) + Dot(idx, Scaled(CStrides(shape, size), cuts))
  }

  /** The parent has the C stride in each dimension along which the slice has two or more elements. */
  ghost predicate CStrideWhereSliced(shape: seq<nat>, strides: seq<int>, size: nat, cuts: seq<Cut>)
    requires |shape| == |strides| == |cuts| && Sliceable(cuts)
  {
    forall i | 0 <= i < |cuts| :: cuts[i].Count() >= 2 ==> strides[i] == CStrides(shape, size)[i]
  }

  lemma SliceReadsParent(base: int, shape: seq<nat>, strides: seq<int>, size: nat, cuts: seq<Cut>, idx: seq<int>)
    requires |shape| == |strides| == |cuts| && Sliceable(cuts) && AllDefined(cuts)
    requires CStrideWhereSliced(shape, strides, size, cuts) && InBounds(idx, Counts(cuts))
    ensures SliceAddr(base, shape, strides, size, cuts, idx) == base + Dot(ParentTuple(cuts, idx), strides)
  {
    var mine, theirs := Scaled(CStrides(shape, size), cuts), Scaled(strides, cuts);
    forall i | 0 <= i < |idx| ensures idx[i] == 0 || mine[i] == theirs[i] {
      assert idx[i] < (Counts(cuts)[i] as int);
    }
    DotAgrees(idx, mine, theirs);
    DotParentTuple(cuts, idx, strides);
  }

  lemma SliceMissesParent(base: int, shape: seq<nat>, strides: seq<int>, size: nat, cuts: seq<Cut>, i: nat)
    requires |shape| == |strides| == |cuts| && Sliceable(cuts) && AllDefined(cuts)
    requires i < |cuts| && strides[i] != CStrides(shape, size)[i]
    ensures SliceAddr(base, shape, strides, size, cuts, Unit(|cuts|, i))
         != base + Dot(ParentTuple(cuts, Unit(|cuts|, i)), strides)
  {
    var idx := Unit(|cuts|, i);
    DotUnit(Scaled(CStrides(shape, size), cuts), i);
    DotUnit(Scaled(strides, cuts), i);
    DotParentTuple(cuts, idx, strides);
    assert cuts[i] in cuts;
    MulCancels(strides[i], CStrides(shape, size)[i], cuts[i].step);
  }

  /** Every element of a non-empty slice is the parent element at first + i*step exactly when the
      parent has the C stride in each dimension along which the slice has two or more elements. */
  lemma SliceReadsParentIff(base: int, shape: seq<nat>, strides: seq<int>, size: nat, cuts: seq<Cut>)
    requires |shape| == |strides| == |cuts| && Sliceable(cuts) && AllDefined(cuts)
    requires forall i | 0 <= i < |cuts| :: cuts[i].Count() > 0
    ensures (forall idx: seq<int> | InBounds(idx, Counts(cuts)) ::
              SliceAddr(base, shape, strides, size, cuts, idx) == base + Dot(ParentTuple(cuts, idx), strides))
       <==> CStrideWhereSliced(shape, strides, size, cuts)
  {
    if CStrideWhereSliced(shape, strides, size, cuts) {
      forall idx: seq<int> | InBounds(idx, Counts(cuts))
        ensures SliceAddr(base, shape, strides, size, cuts, idx) == base + Dot(ParentTuple(cuts, idx), strides)
      {
        SliceReadsParent(base, shape, strides, size, cuts, idx);
      }
    } else {
      var i :| 0 <= i < |cuts| && cuts[i].Count() >= 2 && strides[i] != CStrides(shape, size)[i];
      SliceMissesParent(base, shape, strides, size, cuts, i);
      assert InBounds(Unit(|cuts|, i), Counts(cuts));
    }
  }

  lemma MulCancels(a: int, b: int, d: int)
    requires a != b && d != 0
    ensures a * d != b * d
  {
    MulDistributes(a, -b, d);
  }

  /** A slice of a C-continuous array by ranges that run in the direction of their steps stays inside
      the array and reads the parent element at first + i*step. */
  lemma SliceStaysInside(base: int, shape: seq<nat>, size: nat, cuts: seq<Cut>, idx: seq<int>)
    requires |shape| == |cuts| && Sliceable(cuts) && AllDefined(cuts) && InBounds(idx, Counts(cuts))
    requires forall i | 0 <= i < |cuts| ::
      && cuts[i].n == shape[i] > 0 && cuts[i].Oriented()
      && 0 <= cuts[i].First() < shape[i] && 0 <= cuts[i].Last() < shape[i]
    ensures InBounds(ParentTuple(cuts, idx), shape)
    ensures SliceAddr(base, shape, CStrides(shape, size), size, cuts, idx)
         == base + Ravel(ParentTuple(cuts, idx), shape) * size
  {
    var p := ParentTuple(cuts, idx);
    forall i | 0 <= i < |cuts| ensures 0 <= p[i] < shape[i] {
      assert cuts[i] in cuts && 0 <= idx[i] < cuts[i].Count();
      SliceBetweenBoundsIff(cuts[i]);
      assert Between(ParentIndex(cuts[i], idx[i]), cuts[i].First(), cuts[i].Last());
    }
    DotParentTuple(cuts, idx, CStrides(shape, size));
    DotCStrides(p, shape, size);
  }

  // ----- The view in terms of the arguments -----

  /** The optional argument for dimension i. */
  function ArgAt(arg: Option<seq<int>>, i: nat, default: int): int
    requires arg.Some? ==> i < |arg.value|
  {
    if arg.Some? then arg.value[i] else default
  }

  /** The arguments of a slice: its bounds and steps, each for all dimensions or left out. */
  datatype Args = Args(start: Option<seq<int>>, stop: Option<seq<int>>, step: Option<seq<int>>) {
    ghost predicate For(shape: seq<nat>) {
      && (start.Some? ==> |start.value| == |shape|)
      && (stop.Some? ==> |stop.value| == |shape|)
      && (step.Some? ==> |step.value| == |shape|)
    }

    function StepAt(shape: seq<nat>, i: nat): int
      requires For(shape) && i < |shape|
    {
      ArgAt(step, i, 1)
    }

    /** The lower bound of dimension i: the start of a positive step, the stop of a negative one. */
    function Low(shape: seq<nat>, i: nat): int
      requires For(shape) && i < |shape|
    {
      ArgAt(if StepAt(shape, i) > 0 then start else stop, i, 0)
    }

    /** The upper bound, which is not included. */
    function High(shape: seq<nat>, i: nat): int
      requires For(shape) && i < |shape|
    {
      ArgAt(if StepAt(shape, i) > 0 then stop else start, i, shape[i])
    }

    /** The range is not empty and inside the dimension. */
    ghost predicate IsRange(shape: seq<nat>, i: nat)
      requires For(shape) && i < |shape|
    {
      StepAt(shape, i) != 0 && 0 <= Low(shape, i) < High(shape, i) <= shape[i]
    }

    /** Number of elements taken. */
    function Taken(shape: seq<nat>, i: nat): nat
      requires For(shape) && i < |shape| && IsRange(shape, i)
    {
      RoundedCount(High(shape, i) - Low(shape, i), StepAt(shape, i))
    }

    /** Element k of dimension i of the view is element x of the parent: k steps up from the lower bound, or down
        from below the upper one. */
    ghost predicate Shows(shape: seq<nat>, i: nat, k: int, x: int)
      requires For(shape) && i < |shape|
    {
      && Low(shape, i) <= x < High(shape, i)
      && x == (if StepAt(shape, i) > 0 then Low(shape, i) else High(shape, i) - 1) + k * StepAt(shape, i)
    }
  }

  /** Where the elements of dimension i begin and end. */
  lemma EndsAreDocumented(a: Args, shape: seq<nat>, c: Cut, i: nat)
    requires a.For(shape) && i < |shape| && a.IsRange(shape, i)
    requires c == CutAt(shape, a.start, a.stop, a.step, i) && c.Defined()
    ensures c.step == a.StepAt(shape, i) && c.n == shape[i]
    ensures c.step > 0 ==> c.First() == a.Low(shape, i) && c.Last() == a.High(shape, i) - 1
    ensures c.step < 0 ==> c.First() == a.High(shape, i) - 1 && c.Last() == a.Low(shape, i)
  {
    BoundsAreDocumented(c);
  }

  lemma RangeIsDocumented(a: Args, shape: seq<nat>, c: Cut, i: nat)
    requires a.For(shape) && i < |shape| && a.IsRange(shape, i)
    requires c == CutAt(shape, a.start, a.stop, a.step, i) && c.Defined()
    ensures c.step == a.StepAt(shape, i) && c.Oriented() && c.n == shape[i] > 0
    ensures 0 <= c.First() < shape[i] && 0 <= c.Last() < shape[i]
    ensures c.Count() == a.Taken(shape, i)
  {
    EndsAreDocumented(a, shape, c, i);
  }

  lemma ElementIsShown(a: Args, shape: seq<nat>, c: Cut, i: nat, k: nat)
    requires a.For(shape) && i < |shape| && a.IsRange(shape, i)
    requires c == CutAt(shape, a.start, a.stop, a.step, i) && c.Defined() && c.step != 0 && k < c.Count()
    ensures a.Shows(shape, i, k, ParentIndex(c, k))
  {
    EndsAreDocumented(a, shape, c, i);
    SliceBetweenBoundsIff(c);
    assert Between(ParentIndex(c, k), c.First(), c.Last());
  }

  /** The ranges of all dimensions are not empty and inside them. */
  ghost predicate AreRanges(a: Args, shape: seq<nat>) {
    a.For(shape) && forall i | 0 <= i < |shape| :: a.IsRange(shape, i)
  }

  lemma RangesAreDocumented(a: Args, shape: seq<nat>, cuts: seq<Cut>)
    requires AreRanges(a, shape) && cuts == Cuts(shape, a.start, a.stop, a.step) && AllDefined(cuts) && Sliceable(cuts)
    ensures forall i | 0 <= i < |cuts| ::
      && cuts[i].n == shape[i] > 0 && cuts[i].Oriented()
      && 0 <= cuts[i].First() < shape[i] && 0 <= cuts[i].Last() < shape[i]
    ensures forall i | 0 <= i < |cuts| :: Counts(cuts)[i] == a.Taken(shape, i)
  {
    forall i | 0 <= i < |cuts|
      ensures cuts[i].n == shape[i] > 0 && cuts[i].Oriented()
      ensures 0 <= cuts[i].First() < shape[i] && 0 <= cuts[i].Last() < shape[i]
      ensures Counts(cuts)[i] == a.Taken(shape, i)
    {
      assert cuts[i] in cuts && a.IsRange(shape, i);
      RangeIsDocumented(a, shape, cuts[i], i);
    }
  }

  lemma TupleShows(a: Args, shape: seq<nat>, cuts: seq<Cut>, idx: seq<int>)
    requires AreRanges(a, shape) && cuts == Cuts(shape, a.start, a.stop, a.step) && AllDefined(cuts) && Sliceable(cuts)
    requires InBounds(idx, Counts(cuts))
    ensures forall i | 0 <= i < |shape| :: a.Shows(shape, i, idx[i], ParentTuple(cuts, idx)[i])
  {
    forall i | 0 <= i < |shape| ensures a.Shows(shape, i, idx[i], ParentTuple(cuts, idx)[i]) {
      assert cuts[i] in cuts && a.IsRange(shape, i) && 0 <= idx[i] < Counts(cuts)[i];
      ElementIsShown(a, shape, cuts[i], i, idx[i]);
    }
  }

  /** The index tuple p of the parent is the one that idx of the view shows. */
  ghost predicate ShowsTuple(a: Args, shape: seq<nat>, idx: seq<int>, p: seq<int>)
    requires a.For(shape)
  {
    |idx| == |p| == |shape| && forall i | 0 <= i < |shape| :: a.Shows(shape, i, idx[i], p[i])
  }

  lemma RangesAreShown(a: Args, shape: seq<nat>, cuts: seq<Cut>, base: int, size: nat, idx: seq<int>, p: seq<int>)
    requires AreRanges(a, shape) && cuts == Cuts(shape, a.start, a.stop, a.step) && AllDefined(cuts) && Sliceable(cuts)
    requires InBounds(idx, Counts(cuts)) && p == ParentTuple(cuts, idx)
    ensures InBounds(p, shape) && ShowsTuple(a, shape, idx, p)
    ensures SliceAddr(base, shape, CStrides(shape, size), size, cuts, idx) == base + Ravel(p, shape) * size
  {
    RangesAreDocumented(a, shape, cuts);
    TupleShows(a, shape, cuts, idx);
    SliceStaysInside(base, shape, size, cuts, idx);
  }

  /** A slice of a C-continuous array by non-empty ranges inside the dimensions, in terms of the arguments: a view
      of the same block whose element idx is the parent's element at the first index plus idx steps, which lies in
      the range. */
  lemma SliceShowsRanges(arr: DLiteArray, a: Args, view: DLiteArray, idx: seq<int>) returns (p: seq<int>)
    requires AreRanges(a, arr.shape)
    requires IsSlice(arr, Cuts(arr.shape, a.start, a.stop, a.step), view)
    requires arr.strides == CStrides(arr.shape, arr.size) && InBounds(idx, view.shape)
    ensures view.Valid() && view.data == arr.data && view.size == arr.size && |view.shape| == |arr.shape|
    ensures forall i | 0 <= i < |arr.shape| :: view.shape[i] == a.Taken(arr.shape, i)
    ensures InBounds(p, arr.shape) && ShowsTuple(a, arr.shape, idx, p)
    ensures view.base + Dot(idx, view.strides) == arr.base + Ravel(p, arr.shape) * arr.size
  {
    var cuts := Cuts(arr.shape, a.start, a.stop, a.step);
    p := ParentTuple(cuts, idx);
    RangesAreDocumented(a, arr.shape, cuts);
    RangesAreShown(a, arr.shape, cuts, arr.base, arr.size, idx, p);
  }

  /** The default range of an empty dimension has two elements. */
  lemma EmptyDimensionExample()
    ensures var c := Cut(0, None, None, 1); c.Defined() && c.First() == 0 && c.Last() == -1 && c.Count() == 2
  {
    ToIntOfSmall(0);
  }
}
