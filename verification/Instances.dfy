/** Arrays of an instance and its dimensions (`dlite-entity.c`): evaluation of the shapes of properties, and
    resizing. */
module Instances {
  import opened Options
  import opened MixedRadix
  import opened Layouts

  // ----- Machine integers -----

  const INT_MIN: int := -0x8000_0000
  const INT_LIMIT: int := 0x8000_0000
  const MODULUS: nat := 0x1_0000_0000

  /** Conversion to a 32 bit integer. */
  function Int32(x: int): (r: int)
    ensures INT_MIN <= r < INT_LIMIT
  {
    (x - INT_MIN) % MODULUS + INT_MIN
  }

  lemma Int32OfSum(x: int, k: int)
    ensures Int32(x + k * MODULUS) == Int32(x)
  {
    var y := x - INT_MIN;
    DivModIdentity(y, MODULUS);
    MulDistributes(y / MODULUS, k, MODULUS);
    DivModUnique(y / MODULUS + k, MODULUS, y % MODULUS);
  }

  lemma Int32IsCongruent(x: int)
    ensures exists k: int :: Int32(x) == x + k * MODULUS
  {
    var y := x - INT_MIN;
    DivModIdentity(y, MODULUS);
    assert Int32(x) == x + (-(y / MODULUS)) * MODULUS;
  }

  /** Products may be converted step by step. */
  lemma Int32OfProduct(a: int, b: int)
    ensures Int32(Int32(a) * b) == Int32(a * b)
  {
    Int32IsCongruent(a);
    var k: int :| Int32(a) == a + k * MODULUS;
    MulDistributes(a, k * MODULUS, b);
    MulAssociates(k, MODULUS, b);
    assert Int32(a) * b == a * b + (k * b) * MODULUS;
    Int32OfSum(a * b, k * b);
  }

  lemma Int32Fits(x: int)
    ensures Int32(x) == x <==> INT_MIN <= x < INT_LIMIT
  {
    if INT_MIN <= x < INT_LIMIT { DivModUnique(0, MODULUS, x - INT_MIN); }
  }

  const SIZE_MODULUS: nat := 0x1_0000_0000_0000_0000

  /** Conversion to a 64 bit size. */
  function Size64(x: int): nat {
    x % SIZE_MODULUS
  }

  lemma Size64OfProduct(a: int, b: int)
    ensures Size64(Size64(a) * b) == Size64(a * b)
  {
    var k := a / SIZE_MODULUS;
    var r := Size64(a);
    DivModIdentity(a, SIZE_MODULUS);
    MulDistributes(k * SIZE_MODULUS, r, b);
    MulAssociates(k, SIZE_MODULUS, b);
    var c := r * b;
    DivModIdentity(c, SIZE_MODULUS);
    MulDistributes(c / SIZE_MODULUS, k * b, SIZE_MODULUS);
    assert a * b == (c / SIZE_MODULUS + k * b) * SIZE_MODULUS + Size64(c);
    DivModUnique(c / SIZE_MODULUS + k * b, SIZE_MODULUS, Size64(c));
  }

  /** A size that fits in an int is the same when computed in one. */
  lemma SmallSizeIsInt32(x: int)
    requires Size64(x) < INT_LIMIT
    ensures Int32(x) == Size64(x)
  {
    var k := x / SIZE_MODULUS;
    DivModIdentity(x, SIZE_MODULUS);
    assert x == Size64(x) + (k * MODULUS) * MODULUS;
    Int32OfSum(Size64(x), k * MODULUS);
    Int32Fits(Size64(x));
  }

  // ----- Evaluation -----

  /** Value of an expression; infixcalc() returns INT_MIN on error. */
  function ValueOf(e: Expr, dims: seq<nat>): int {
    if e(dims).Some? then e(dims).value else INT_MIN
  }

  function Values(shape: seq<Expr>, dims: seq<nat>): (v: seq<int>)
    ensures |v| == |shape|
  {
    seq(|shape|, k requires 0 <= k < |shape| => ValueOf(shape[k], dims))
  }

  /** What the evaluation assigns to the property dimensions. */
  function Evaluated(props: seq<Prop>, dims: seq<nat>): (v: seq<int>)
    ensures |v| == NPropDims(props)
  {
    if props == [] then [] else Evaluated(props[..|props| - 1], dims) + Values(props[|props| - 1].shape, dims)
  }

  /** An error is noticed only in the last dimension of a property: each evaluation clears the message of the
      one before. */
  predicate Noticed(p: Prop, dims: seq<nat>) {
    p.shape != [] && p.shape[|p.shape| - 1](dims).None?
  }

  predicate EvalOk(props: seq<Prop>, dims: seq<nat>) {
    forall i | 0 <= i < |props| :: !Noticed(props[i], dims)
  }

  predicate Defined(p: Prop, dims: seq<nat>) {
    forall k | 0 <= k < |p.shape| :: p.shape[k](dims).Some?
  }

  predicate AllDefined(props: seq<Prop>, dims: seq<nat>) {
    forall i | 0 <= i < |props| :: Defined(props[i], dims)
  }

  /** An expression that cannot be evaluated, followed by one that can. */
  lemma UnnoticedErrorExample(dims: seq<nat>)
    ensures var bad: Expr, good: Expr := (_ => None), (_ => Some(1));
      var props := [Prop(Int, 8, [bad, good])];
      EvalOk(props, dims) && !AllDefined(props, dims) && Evaluated(props, dims) == [INT_MIN, 1]
  {
    var bad: Expr, good: Expr := (_ => None), (_ => Some(1));
    var props := [Prop(Int, 8, [bad, good])];
    assert props[..0] == [];
    assert props[0].shape[0](dims).None?;
    assert !Defined(props[0], dims);
  }

  /** Through the index of its first dimension each property finds its own evaluated dimensions. */
  lemma {:induction false} EvaluatedAt(props: seq<Prop>, dims: seq<nat>, i: nat, k: nat)
    requires i < |props| && k < props[i].Ndims()
    ensures DimSlot(props, i, k) < |Evaluated(props, dims)|
    ensures Evaluated(props, dims)[DimSlot(props, i, k)] == ValueOf(props[i].shape[k], dims)
    decreases |props|
  {
    var n := |props| - 1;
    var rest := props[..n];
    if i < n {
      assert rest[..i] == props[..i] && rest[i] == props[i];
      EvaluatedAt(rest, dims, i, k);
    }
  }

  /** Each property finds, through the index of its first dimension, the values of its expressions. */
  ghost predicate Exact(props: seq<Prop>, dims: seq<nat>) {
    forall i: nat, k: nat | i < |props| && k < props[i].Ndims() ::
      DimSlot(props, i, k) < |Evaluated(props, dims)|
      && props[i].shape[k](dims) == Some(Evaluated(props, dims)[DimSlot(props, i, k)])
  }

  lemma ExactIff(props: seq<Prop>, dims: seq<nat>)
    ensures Exact(props, dims) <==> AllDefined(props, dims)
  {
    forall i: nat, k: nat | i < |props| && k < props[i].Ndims()
      ensures DimSlot(props, i, k) < |Evaluated(props, dims)|
      ensures Evaluated(props, dims)[DimSlot(props, i, k)] == ValueOf(props[i].shape[k], dims)
    {
      EvaluatedAt(props, dims, i, k);
    }
    if Exact(props, dims) {
      forall i | 0 <= i < |props| ensures Defined(props[i], dims) {
        forall k | 0 <= k < |props[i].shape| ensures props[i].shape[k](dims).Some? {
          assert k < props[i].Ndims();
        }
      }
    }
  }

  /** The properties have the given numbers of dimensions. */
  ghost predicate HaveDimensions(props: seq<Prop>, ns: seq<nat>) {
    |props| == |ns| && forall i | 0 <= i < |ns| :: props[i].Ndims() == ns[i]
  }

  /** Shapes that cannot be evaluated in the first dimension of property i. */
  function BadShapes(ns: seq<nat>, i: nat): (props: seq<Prop>)
    ensures |props| == |ns|
  {
    var bad: Expr, good: Expr := (_ => None), (_ => Some(1));
    seq(|ns|, k requires 0 <= k < |ns| =>
      Prop(Int, 8, seq(ns[k], j requires 0 <= j < ns[k] => if k == i && j == 0 then bad else good)))
  }

  lemma BadShapesAreAccepted(ns: seq<nat>, i: nat, dims: seq<nat>)
    requires i < |ns| && ns[i] > 1
    ensures var props := BadShapes(ns, i); HaveDimensions(props, ns) && EvalOk(props, dims) && !Exact(props, dims)
  {
    var props := BadShapes(ns, i);
    assert props[i].shape[0](dims).None?;
    assert !Defined(props[i], dims);
    ExactIff(props, dims);
  }

  lemma SingleDimensionIsNoticed(props: seq<Prop>, dims: seq<nat>)
    requires EvalOk(props, dims) && forall i | 0 <= i < |props| :: props[i].Ndims() <= 1
    ensures Exact(props, dims)
  {
    forall i | 0 <= i < |props| ensures Defined(props[i], dims) {
      assert !Noticed(props[i], dims);
    }
    ExactIff(props, dims);
  }

  /** For given numbers of dimensions success means that the property dimensions are the values of all
      expressions, whatever these are, exactly if no property has more than one dimension. */
  lemma ErrorsAreNoticedIff(ns: seq<nat>, dims: seq<nat>)
    ensures (forall props | HaveDimensions(props, ns) && EvalOk(props, dims) :: Exact(props, dims))
      <==> forall i | 0 <= i < |ns| :: ns[i] <= 1
  {
    if i: nat :| i < |ns| && ns[i] > 1 {
      BadShapesAreAccepted(ns, i, dims);
    } else {
      forall props | HaveDimensions(props, ns) && EvalOk(props, dims) ensures Exact(props, dims) {
        SingleDimensionIsNoticed(props, dims);
      }
    }
  }

  // ----- Arrays -----

  function IntProduct(v: seq<int>): int {
    if v == [] then 1 else IntProduct(v[..|v| - 1]) * v[|v| - 1]
  }

  /** Number of members as computed in an int. */
  function Members(v: seq<int>): int {
    Int32(IntProduct(v))
  }

  function Length(n: int): nat {
    if n > 0 then n else 0
  }

  /** An array is kept up to the new length, and what is new is zero. */
  function Resized(a: seq<int>, n: nat): (r: seq<int>)
    ensures |r| == n
    ensures forall k | 0 <= k < n :: r[k] == if k < |a| then a[k] else 0
  {
    if n <= |a| then a[..n] else a + Zeros(n - |a|)
  }

  function ResizedBy(a: seq<int>, lengths: seq<nat>): (r: seq<int>)
    ensures |r| == if lengths == [] then |a| else lengths[|lengths| - 1]
  {
    if lengths == [] then a else Resized(ResizedBy(a, lengths[..|lengths| - 1]), lengths[|lengths| - 1])
  }

  /** After any run of resizes a member has its first value if the array has never been too short for it, and
      is zero otherwise. */
  lemma {:induction false} ResizesKeepPrefix(a: seq<int>, lengths: seq<nat>, k: nat)
    requires k < |ResizedBy(a, lengths)|
    ensures ResizedBy(a, lengths)[k] == if k < |a| && (forall i | 0 <= i < |lengths| :: k < lengths[i]) then a[k] else 0
    decreases |lengths|
  {
    if lengths != [] {
      var rest, n := lengths[..|lengths| - 1], lengths[|lengths| - 1];
      assert forall i | 0 <= i < |rest| :: lengths[i] == rest[i];
      if k < |ResizedBy(a, rest)| { ResizesKeepPrefix(a, rest, k); }
    }
  }

  /** The dimensions after a resize: negative sizes keep a dimension. */
  function Merged(dims: seq<nat>, sizes: seq<int>): (r: seq<nat>)
    requires |dims| == |sizes|
    ensures |r| == |dims| && forall n | 0 <= n < |dims| :: r[n] == if sizes[n] >= 0 then sizes[n] else dims[n]
  {
    seq(|dims|, n requires 0 <= n < |dims| => if sizes[n] >= 0 then sizes[n] else dims[n])
  }

  /** All dimensions of the property are defined and not negative, and their product fits in an int. */
  predicate Regular(p: Prop, dims: seq<nat>) {
    && Defined(p, dims)
    && (forall k | 0 <= k < |p.shape| :: ValueOf(p.shape[k], dims) >= 0)
    && IntProduct(Values(p.shape, dims)) < INT_LIMIT
  }

  lemma {:induction false} ProductNonNegative(v: seq<int>)
    requires forall k | 0 <= k < |v| :: v[k] >= 0
    ensures IntProduct(v) >= 0
    decreases |v|
  {
    if v != [] { ProductNonNegative(v[..|v| - 1]); }
  }

  /** The loops multiply all dimensions: for those that are not negative it is the number of elements of the shape. */
  lemma {:induction false} IntProductIsProduct(shape: seq<nat>)
    ensures IntProduct(shape) == Product(shape)
    decreases |shape|
  {
    if shape != [] {
      var n := |shape| - 1;
      IntProductIsProduct(shape[..n]);
      ProductSnoc(shape[..n], shape[n]);
      assert shape == shape[..n] + [shape[n]];
    }
  }

  /** Negative ones are factors like the others. */
  lemma {:induction false} IntProductOfParts(a: seq<int>, b: seq<int>)
    ensures IntProduct(a + b) == IntProduct(a) * IntProduct(b)
    ensures forall x: int :: IntProduct([x]) == x
    decreases |b|
  {
    assert forall x: int :: [x][..0] == [];
    if b == [] {
      assert a + b == a;
    } else {
      var n := |b| - 1;
      IntProductOfParts(a, b[..n]);
      assert (a + b)[..|a| + n] == a + b[..n];
      MulAssociates(IntProduct(a), IntProduct(b[..n]), b[n]);
    }
  }

  function Shape(p: Prop, dims: seq<nat>): seq<nat>
    requires Regular(p, dims)
  {
    Values(p.shape, dims)
  }

  lemma RegularMembers(p: Prop, dims: seq<nat>)
    requires Regular(p, dims)
    ensures Members(Values(p.shape, dims)) == Product(Shape(p, dims))
  {
    ProductNonNegative(Values(p.shape, dims));
    Int32Fits(IntProduct(Values(p.shape, dims)));
    IntProductIsProduct(Shape(p, dims));
  }

  /** The array has as many members as the product of the dimensions exactly if that is not negative and
      fits in an int. */
  lemma LengthIsProductIff(v: seq<int>)
    ensures Length(Members(v)) == IntProduct(v) <==> 0 <= IntProduct(v) < INT_LIMIT
    ensures (forall k | 0 <= k < |v| :: v[k] >= 0) ==>
      (Length(Members(v)) == Product(v) <==> Product(v) < INT_LIMIT)
  {
    Int32Fits(IntProduct(v));
    if forall k | 0 <= k < |v| :: v[k] >= 0 { IntProductIsProduct(v); }
  }

  /** What calloc() is taken to be able to allocate. */
  predicate Allocatable(p: Prop, dims: seq<nat>) {
    p.Ndims() == 0 || Size64(IntProduct(Values(p.shape, dims))) < INT_LIMIT
  }

  // ----- Instances -----

  /** Property dimensions that begin at an index. */
  function DimsOf(propdims: seq<int>, props: seq<Prop>, i: nat): (v: seq<int>)
    requires |propdims| == NPropDims(props) && i < |props|
    ensures |v| == props[i].Ndims()
  {
    DimSlotInside(props, i);
    propdims[DimSlot(props, i, 0)..DimSlot(props, i, props[i].Ndims())]
  }

  lemma DimSlotInside(props: seq<Prop>, i: nat)
    requires i < |props|
    ensures DimSlot(props, i, props[i].Ndims()) <= NPropDims(props)
  {
    assert props[..|props|] == props;
    NPropDimsGrows(props, i, |props|);
  }

  lemma EvaluatedDimsOf(props: seq<Prop>, dims: seq<nat>, i: nat)
    requires i < |props|
    ensures DimsOf(Evaluated(props, dims), props, i) == Values(props[i].shape, dims)
  {
    var v, start := Evaluated(props, dims), DimSlot(props, i, 0);
    forall k: nat | k < props[i].Ndims() ensures DimsOf(v, props, i)[k] == Values(props[i].shape, dims)[k] {
      EvaluatedAt(props, dims, i, k);
      DimSlotInside(props, i);
      assert v[start..DimSlot(props, i, props[i].Ndims())][k] == v[start + k];
    }
  }

  class Instance {
    const props: seq<Prop>
    const isData: bool

    var frozen: bool
    const dims: array<nat>
    const propdims: array<int>
    /** Arrays of the properties with dimensions; an empty one stands for a null pointer. */
    const arrays: array<seq<int>>

    ghost predicate Shaped() {
      && propdims.Length == NPropDims(props) && arrays.Length == |props|
    }

    /** The property dimensions are those of the expressions at the dimensions of the instance, and the
        length of each array is the product of its property dimensions. */
    ghost predicate Valid()
      reads dims, propdims, arrays
    {
      && Shaped() && propdims[..] == Evaluated(props, dims[..])
      && forall i | 0 <= i < |props| && props[i].Ndims() > 0 ::
        |arrays[i]| == Length(Members(Values(props[i].shape, dims[..])))
    }

    /** Dimensions, arrays and the immutable flag. */
    ghost function Current(): State
      reads this, dims, arrays
    {
      State(dims[..], arrays[..], frozen)
    }

    method Freeze()
      modifies this`frozen
      ensures Runs(Current()) == After(props, isData, old(Current()), Event.Freeze)
    {
      frozen := true;
    }

    constructor (props: seq<Prop>, ndimensions: nat, isData: bool)
      ensures Shaped() && !frozen && dims.Length == ndimensions
      ensures this.props == props && this.isData == isData
      ensures fresh(dims) && fresh(propdims) && fresh(arrays)
      ensures forall i | 0 <= i < |props| :: arrays[i] == []
    {
      this.props, this.isData, frozen := props, isData, false;
      dims := new nat[ndimensions](_ => 0);
      propdims := new int[NPropDims(props)](_ => 0);
      arrays := new seq<int>[|props|](_ => []);
    }

    /** _instance_propdims_eval() */
    method Evaluate(sizes: seq<nat>) returns (ok: bool)
      requires Shaped()
      modifies propdims
      ensures ok == EvalOk(props, sizes)
      ensures ok ==> propdims[..] == Evaluated(props, sizes)
    {
      var i: nat := 0;
      while i < |props|
        invariant i <= |props| && NPropDims(props[..i]) <= propdims.Length
        invariant EvalOk(props[..i], sizes)
        invariant propdims[..NPropDims(props[..i])] == Evaluated(props[..i], sizes)
      {
        DimSlotInside(props, i);
        var error := EvaluateProperty(i, sizes);
        assert props[..i + 1][..i] == props[..i] && props[..i + 1][i] == props[i];
        if error { return false; }
        i := i + 1;
      }
      assert props[..i] == props;
      return true;
    }

    /** Evaluates the dimensions of one property. */
    method EvaluateProperty(i: nat, sizes: seq<nat>) returns (error: bool)
      requires Shaped() && i < |props| && DimSlot(props, i, props[i].Ndims()) <= propdims.Length
      modifies propdims
      ensures error == Noticed(props[i], sizes)
      ensures propdims[..DimSlot(props, i, props[i].Ndims())] ==
        old(propdims[..DimSlot(props, i, 0)]) + Values(props[i].shape, sizes)
    {
      error := false;
      var shape := props[i].shape;
      var n := NPropDims(props[..i]);
      ghost var before := propdims[..n];
      var j: nat := 0;
      while j < |shape|
        invariant j <= |shape| && propdims[..n + j] == before + Values(shape, sizes)[..j]
        invariant error == (j > 0 && shape[j - 1](sizes).None?)
      {
        propdims[n + j] := ValueOf(shape[j], sizes);
        error := shape[j](sizes).None?;
        assert propdims[..n + j + 1] == propdims[..n + j] + [propdims[n + j]];
        j := j + 1;
      }
      assert Values(shape, sizes)[..j] == Values(shape, sizes);
    }

    /** Number of members of property i by its property dimensions. */
    method CountMembers(i: nat) returns (n: int)
      requires Shaped() && i < |props|
      ensures n == Members(DimsOf(propdims[..], props, i))
    {
      DimSlotInside(props, i);
      var start := NPropDims(props[..i]);
      ghost var v := DimsOf(propdims[..], props, i);
      n := 1;
      Int32Fits(1);
      var j: nat := 0;
      while j < props[i].Ndims()
        invariant j <= props[i].Ndims() && n == Members(v[..j])
      {
        assert v[..j + 1][..j] == v[..j];
        Int32OfProduct(IntProduct(v[..j]), v[j]);
        n := Int32(n * propdims[start + j]);
        j := j + 1;
      }
      assert v[..j] == v;
    }
  
    /** Number of members of property i as computed in a size. */
    method CountSize(i: nat) returns (n: nat)
      requires Shaped() && i < |props|
      ensures n == Size64(IntProduct(DimsOf(propdims[..], props, i)))
    {
      DimSlotInside(props, i);
      var start := NPropDims(props[..i]);
      ghost var v := DimsOf(propdims[..], props, i);
      n := 1;
      var j: nat := 0;
      while j < props[i].Ndims()
        invariant j <= props[i].Ndims() && n == Size64(IntProduct(v[..j]))
      {
        assert v[..j + 1][..j] == v[..j];
        Size64OfProduct(IntProduct(v[..j]), v[j]);
        n := Size64(n * propdims[start + j]);
        j := j + 1;
      }
      assert v[..j] == v;
    }

    /** The body of _instance_create(): dimensions, property dimensions, and arrays of zeros. */
    method Initialise(sizes: seq<nat>) returns (ok: bool)
      requires Shaped() && |sizes| == dims.Length && forall i | 0 <= i < |props| :: arrays[i] == []
      modifies dims, propdims, arrays
      ensures ok == (EvalOk(props, sizes) && forall i | 0 <= i < |props| :: Allocatable(props[i], sizes))
      ensures ok ==> Valid() && dims[..] == sizes
      ensures ok ==> forall i | 0 <= i < |props| :: arrays[i] == ArrayAfter(props[i], [], sizes)
    {
      StoreSizes(sizes);
      assert dims[..] == sizes;
      ok := Evaluate(sizes);
      if ok { ok := AllocateAll(sizes); }
    }

    method AllocateAll(ghost sizes: seq<nat>) returns (ok: bool)
      requires Shaped() && propdims[..] == Evaluated(props, sizes)
      requires forall i | 0 <= i < |props| :: arrays[i] == []
      modifies arrays
      ensures ok == forall i | 0 <= i < |props| :: Allocatable(props[i], sizes)
      ensures ok ==> forall i | 0 <= i < |props| :: arrays[i] == ArrayAfter(props[i], [], sizes)
    {
      var i: nat := 0;
      while i < |props|
        invariant i <= |props| && forall k | 0 <= k < i :: Allocatable(props[k], sizes)
        invariant Allocated(arrays[..], i, sizes)
      {
        ghost var a := arrays[..];
        assert a[i] == [];
        ok := Allocate(i, sizes);
        if !ok { return; }
        i := i + 1;
      }
      assert forall k | 0 <= k < |props| :: arrays[k] == arrays[..][k];
      return true;
    }

    /** The first i arrays are allocated, and the others are not yet. */
    ghost predicate Allocated(a: seq<seq<int>>, i: nat, sizes: seq<nat>) {
      |a| == |props| && forall k | 0 <= k < |a| :: a[k] == if k < i then ArrayAfter(props[k], [], sizes) else []
    }

    method Allocate(i: nat, ghost sizes: seq<nat>) returns (ok: bool)
      requires Shaped() && propdims[..] == Evaluated(props, sizes) && i < |props| && arrays[i] == []
      modifies arrays
      ensures ok == Allocatable(props[i], sizes)
      ensures arrays[..] == if ok then old(arrays[..])[i := ArrayAfter(props[i], [], sizes)] else old(arrays[..])
    {
      if props[i].Ndims() > 0 {
        EvaluatedDimsOf(props, sizes, i);
        var n := CountSize(i);
        if n >= INT_LIMIT { return false; }
        FreshArray(props[i], sizes, n);
        if n > 0 { arrays[i] := Zeros(n); }
      }
      return true;
    }

    /** The number of members of each array, before a resize. */
    method CountAll() returns (counts: seq<int>)
      requires Valid()
      ensures |counts| == |props|
        && forall i | 0 <= i < |props| :: counts[i] == Members(Values(props[i].shape, dims[..]))
    {
      counts := [];
      while |counts| < |props|
        invariant |counts| <= |props|
        invariant forall i | 0 <= i < |counts| :: counts[i] == Members(Values(props[i].shape, dims[..]))
      {
        EvaluatedDimsOf(props, dims[..], |counts|);
        var n := CountMembers(|counts|);
        counts := counts + [n];
      }
    }

    /** Changes the length of an array from before to after members. */
    method Reallocate(i: nat, before: int, after: int)
      requires Shaped() && i < |props| && |arrays[i]| == Length(before) && (before >= 0 || after == before)
      modifies arrays
      ensures arrays[..] == old(arrays[..])[i := Resized(old(arrays[i]), Length(after))]
    {
      var a := arrays[i];
      if after == before {
        assert Resized(a, Length(before)) == a;
      } else if after > 0 {
        arrays[i] := if after < before then a[..after] else a + Zeros(after - before);
      } else if a != [] {
        arrays[i] := [];
      }
    }

    /** Reallocates the arrays after the property dimensions have been evaluated for the sizes, up to a negative
        number of members that changes. */
    method ReallocateAll(counts: seq<int>, ghost before: seq<nat>, ghost sizes: seq<nat>) returns (crashed: bool)
      requires Shaped() && propdims[..] == Evaluated(props, sizes) && |counts| == |props|
      requires AllCounted(counts, arrays[..], before)
      modifies arrays
      ensures crashed == AnyDisturbed(props, before, sizes)
      ensures !crashed ==> IsReallocated(old(arrays[..]), arrays[..], |props|, sizes)
    {
      ghost var a := arrays[..];
      var i: nat := 0;
      while i < |props|
        invariant i <= |props| && NoneDisturbed(i, before, sizes) && IsReallocated(a, arrays[..], i, sizes)
      {
        ghost var b := arrays[..];
        NextArray(a, b, counts, i, before, sizes);
        crashed := ReallocateOne(i, counts[i], before, sizes);
        if crashed { return; }
        i := i + 1;
      }
      return false;
    }

    /** The number of members of property i is that by the dimensions before, and its array has that length. */
    ghost predicate IsCounted(i: nat, count: int, a: seq<int>, before: seq<nat>)
      requires i < |props|
    {
      count == Members(Values(props[i].shape, before)) && (props[i].Ndims() > 0 ==> |a| == Length(count))
    }

    ghost predicate AllCounted(counts: seq<int>, a: seq<seq<int>>, before: seq<nat>) {
      |counts| == |a| == |props| && forall i | 0 <= i < |props| :: IsCounted(i, counts[i], a[i], before)
    }

    ghost predicate NoneDisturbed(n: nat, before: seq<nat>, sizes: seq<nat>) {
      n <= |props| && forall k | 0 <= k < n :: !Disturbs(props[k], before, sizes)
    }

    lemma NextArray(a: seq<seq<int>>, b: seq<seq<int>>, counts: seq<int>, i: nat, before: seq<nat>, sizes: seq<nat>)
      requires AllCounted(counts, a, before) && i < |props| && IsReallocated(a, b, i, sizes)
      requires NoneDisturbed(i, before, sizes)
      ensures IsCounted(i, counts[i], b[i], before)
      ensures IsReallocated(a, b[i := ArrayAfter(props[i], b[i], sizes)], i + 1, sizes)
      ensures NoneDisturbed(i + 1, before, sizes) || Disturbs(props[i], before, sizes)
    {}

    /** The first n arrays are reallocated. */
    ghost predicate IsReallocated(a: seq<seq<int>>, b: seq<seq<int>>, n: nat, sizes: seq<nat>) {
      |a| == |b| == |props|
      && forall k | 0 <= k < |props| :: b[k] == if k < n then ArrayAfter(props[k], a[k], sizes) else a[k]
    }

    method ReallocateOne(i: nat, count: int, ghost before: seq<nat>, ghost sizes: seq<nat>) returns (crashed: bool)
      requires Shaped() && propdims[..] == Evaluated(props, sizes) && i < |props|
      requires IsCounted(i, count, arrays[i], before)
      modifies arrays
      ensures crashed == Disturbs(props[i], before, sizes)
      ensures !crashed ==> arrays[..] == old(arrays[..])[i := ArrayAfter(props[i], old(arrays[i]), sizes)]
    {
      if props[i].Ndims() > 0 {
        EvaluatedDimsOf(props, sizes, i);
        var n := CountMembers(i);
        if count < 0 && n != count { return true; }
        Reallocate(i, count, n);
      }
      return false;
    }

    /** dlite_instance_set_dimension_sizes(): negative sizes keep a dimension. What happens after a crash is
        unknown. */
    method SetDimensionSizes(sizes: seq<int>) returns (ok: bool, crashed: bool)
      requires Valid() && |sizes| == dims.Length
      modifies dims, propdims, arrays
      ensures crashed == After(props, isData, old(Current()), Resize(sizes)).Crashed?
      ensures !crashed ==> Valid() && Runs(Current()) == After(props, isData, old(Current()), Resize(sizes))
      ensures !crashed ==> ok == (!frozen && isData && EvalOk(props, Merged(old(dims[..]), sizes)))
      ensures !crashed && !ok ==> Current() == old(Current()) && propdims[..] == old(propdims[..])
    {
      ghost var before := Current();
      ok, crashed := ChangeSizes(sizes);
      if !crashed { SameState(props, isData, before, sizes, Current()); }
    }

    /** The body of dlite_instance_set_dimension_sizes(). */
    method ChangeSizes(sizes: seq<int>) returns (ok: bool, crashed: bool)
      requires Valid() && |sizes| == dims.Length
      modifies dims, propdims, arrays
      ensures crashed == Crashes(props, isData, HeadOf(old(Current())), Resize(sizes))
      ensures !crashed ==> Valid()
      ensures !crashed ==> ok == (!frozen && isData && EvalOk(props, Merged(old(dims[..]), sizes)))
      ensures !crashed && !ok ==>
        dims[..] == old(dims[..]) && propdims[..] == old(propdims[..]) && arrays[..] == old(arrays[..])
      ensures !crashed && ok ==> dims[..] == Merged(old(dims[..]), sizes)
      ensures !crashed && ok ==>
        forall i | 0 <= i < |props| :: arrays[i] == ArrayAfter(props[i], old(arrays[i]), dims[..])
    {
      if frozen || !isData { return false, false; }
      var merged := MergeSizes(sizes);
      var before := propdims[..];
      var counts := CountAll();
      ok := Evaluate(merged);
      if !ok {
        Restore(before);
        return false, false;
      }
      crashed := ReallocateAll(counts, dims[..], merged);
      if !crashed {
        assert forall i | 0 <= i < |props| :: arrays[i] == arrays[..][i];
        StoreSizes(sizes);
      }
    }

    method MergeSizes(sizes: seq<int>) returns (merged: seq<nat>)
      requires |sizes| == dims.Length
      ensures merged == Merged(dims[..], sizes)
    {
      merged := [];
      while |merged| < |sizes|
        invariant |merged| <= |sizes| && merged == Merged(dims[..], sizes)[..|merged|]
      {
        var n := |merged|;
        merged := merged + [if sizes[n] >= 0 then sizes[n] else dims[n]];
      }
    }

    method StoreSizes(sizes: seq<int>)
      requires |sizes| == dims.Length
      modifies dims
      ensures dims[..] == Merged(old(dims[..]), sizes)
    {
      forall n | 0 <= n < dims.Length && sizes[n] >= 0 { dims[n] := sizes[n]; }
    }

    method Restore(before: seq<int>)
      requires |before| == propdims.Length
      modifies propdims
      ensures propdims[..] == before
    {
      forall k | 0 <= k < propdims.Length { propdims[k] := before[k]; }
    }
  }

  lemma FreshArray(p: Prop, dims: seq<nat>, n: nat)
    requires p.Ndims() > 0 && n == Size64(IntProduct(Values(p.shape, dims))) < INT_LIMIT
    ensures ArrayAfter(p, [], dims) == Zeros(n)
  {
    SmallSizeIsInt32(IntProduct(Values(p.shape, dims)));
  }

  /** Array of a property after a resize. */
  function ArrayAfter(p: Prop, a: seq<int>, dims: seq<nat>): seq<int> {
    if p.Ndims() > 0 then Resized(a, Length(Members(Values(p.shape, dims)))) else a
  }

  // ----- Runs of resizes -----

  /** Dimensions and arrays of an instance. */
  datatype State = State(dims: seq<nat>, arrays: seq<seq<int>>, frozen: bool)

  datatype Event = Resize(sizes: seq<int>) | Freeze

  /** The state afterwards, if nothing has been written outside of an array and no assertion has failed. */
  datatype Outcome = Runs(st: State) | Crashed

  /** What decides whether a resize is accepted. */
  datatype Head = Head(dims: seq<nat>, frozen: bool)

  function HeadOf(st: State): Head {
    Head(st.dims, st.frozen)
  }

  /** The resize is neither refused nor does an evaluation fail. */
  predicate Accepted(props: seq<Prop>, isData: bool, h: Head, e: Event) {
    e.Resize? && |e.sizes| == |h.dims| && !h.frozen && isData && EvalOk(props, Merged(h.dims, e.sizes))
  }

  /** The number of members changes and has been negative: zeros are written before the array, or, if the new
      number is not positive, an assertion fails. */
  predicate Disturbs(p: Prop, dims: seq<nat>, next: seq<nat>) {
    p.Ndims() > 0 && var n := Members(Values(p.shape, dims)); n < 0 && Members(Values(p.shape, next)) != n
  }

  predicate AnyDisturbed(props: seq<Prop>, dims: seq<nat>, next: seq<nat>) {
    exists i :: 0 <= i < |props| && Disturbs(props[i], dims, next)
  }

  predicate Crashes(props: seq<Prop>, isData: bool, h: Head, e: Event) {
    Accepted(props, isData, h, e) && AnyDisturbed(props, h.dims, Merged(h.dims, e.sizes))
  }

  function NextHead(props: seq<Prop>, isData: bool, h: Head, e: Event): (r: Head)
    ensures |r.dims| == |h.dims|
  {
    if e.Freeze? then h.(frozen := true)
    else if Accepted(props, isData, h, e) then h.(dims := Merged(h.dims, e.sizes))
    else h
  }

  function After(props: seq<Prop>, isData: bool, st: State, e: Event): (r: Outcome)
    ensures r.Runs? ==> |r.st.arrays| == |st.arrays| && HeadOf(r.st) == NextHead(props, isData, HeadOf(st), e)
  {
    var h := NextHead(props, isData, HeadOf(st), e);
    if Crashes(props, isData, HeadOf(st), e) then Crashed
    else if Accepted(props, isData, HeadOf(st), e) && |st.arrays| == |props| then
      var arrays := seq(|props|, i requires 0 <= i < |props| => ArrayAfter(props[i], st.arrays[i], h.dims));
      Runs(State(h.dims, arrays, h.frozen))
    else Runs(State(h.dims, st.arrays, h.frozen))
  }

  lemma SameState(props: seq<Prop>, isData: bool, st: State, sizes: seq<int>, r: State)
    requires |st.arrays| == |r.arrays| == |props| && |sizes| == |st.dims| && r.frozen == st.frozen
    requires !Crashes(props, isData, HeadOf(st), Resize(sizes))
    requires var ok := !st.frozen && isData && EvalOk(props, Merged(st.dims, sizes));
      && r.dims == (if ok then Merged(st.dims, sizes) else st.dims)
      && (if ok then forall i | 0 <= i < |props| :: r.arrays[i] == ArrayAfter(props[i], st.arrays[i], r.dims)
          else r.arrays == st.arrays)
    ensures Runs(r) == After(props, isData, st, Resize(sizes))
  {}

  function AfterAll(props: seq<Prop>, isData: bool, st: State, events: seq<Event>): (r: Outcome)
    ensures r.Runs? ==> |r.st.arrays| == |st.arrays| && HeadOf(r.st) == HeadAfter(props, isData, HeadOf(st), events)
  {
    if events == [] then Runs(st)
    else
      var r := AfterAll(props, isData, st, events[..|events| - 1]);
      if r.Crashed? then Crashed else After(props, isData, r.st, events[|events| - 1])
  }

  /** The dimensions after a run, as far as it gets. */
  function HeadAfter(props: seq<Prop>, isData: bool, h: Head, events: seq<Event>): (r: Head)
    ensures |r.dims| == |h.dims|
  {
    if events == [] then h
    else NextHead(props, isData, HeadAfter(props, isData, h, events[..|events| - 1]), events[|events| - 1])
  }

  /** The lengths of array i after the resizes that are accepted. */
  function LengthsOf(props: seq<Prop>, isData: bool, h: Head, events: seq<Event>, i: nat): seq<nat>
    requires i < |props|
  {
    if events == [] then []
    else
      var init, last := events[..|events| - 1], events[|events| - 1];
      var before := HeadAfter(props, isData, h, init);
      LengthsOf(props, isData, h, init, i)
      + if Accepted(props, isData, before, last)
        then [Length(Members(Values(props[i].shape, Merged(before.dims, last.sizes))))] else []
  }

  lemma {:induction false} RunResizes(props: seq<Prop>, isData: bool, st: State, events: seq<Event>, i: nat)
    requires i < |props| == |st.arrays| && props[i].Ndims() > 0 && AfterAll(props, isData, st, events).Runs?
    ensures AfterAll(props, isData, st, events).st.arrays[i]
      == ResizedBy(st.arrays[i], LengthsOf(props, isData, HeadOf(st), events, i))
    decreases |events|
  {
    if events != [] {
      var init, last := events[..|events| - 1], events[|events| - 1];
      RunResizes(props, isData, st, init, i);
      var before := AfterAll(props, isData, st, init).st;
      var lengths := LengthsOf(props, isData, HeadOf(st), init, i);
      if Accepted(props, isData, HeadOf(before), last) {
        var n := Length(Members(Values(props[i].shape, Merged(before.dims, last.sizes))));
        assert (lengths + [n])[..|lengths|] == lengths;
        assert After(props, isData, before, last).st.arrays[i] == Resized(before.arrays[i], n);
      } else {
        assert lengths + [] == lengths;
      }
    }
  }

  /** After any run of resizes that does not crash, refused and failed ones among them, a member has its first value
      if the array has never been too short for it, and is zero otherwise. */
  lemma RunKeepsMembers(props: seq<Prop>, isData: bool, st: State, events: seq<Event>, i: nat, k: nat)
    requires i < |props| == |st.arrays| && props[i].Ndims() > 0 && AfterAll(props, isData, st, events).Runs?
    requires k < |AfterAll(props, isData, st, events).st.arrays[i]|
    ensures var a, lengths := st.arrays[i], LengthsOf(props, isData, HeadOf(st), events, i);
      AfterAll(props, isData, st, events).st.arrays[i][k]
        == if k < |a| && (forall n | 0 <= n < |lengths| :: k < lengths[n]) then a[k] else 0
  {
    RunResizes(props, isData, st, events, i);
    ResizesKeepPrefix(st.arrays[i], LengthsOf(props, isData, HeadOf(st), events, i), k);
  }

  /** The length of each array is the product of its dimensions. */
  ghost predicate HasLengths(props: seq<Prop>, st: State) {
    |st.arrays| == |props| && forall i | 0 <= i < |props| && props[i].Ndims() > 0 ::
      |st.arrays[i]| == Length(Members(Values(props[i].shape, st.dims)))
  }

  /** Array lengths agree with the dimensions after any run that does not crash; an immutable instance does not
      change, and its runs do not crash. */
  lemma {:induction false} RunKeepsLengths(props: seq<Prop>, isData: bool, st: State, events: seq<Event>)
    requires HasLengths(props, st)
    ensures var r := AfterAll(props, isData, st, events);
      && (r.Runs? ==> HasLengths(props, r.st)) && (st.frozen ==> r == Runs(st))
      && (r.Runs? ==> forall i | 0 <= i < |props| && props[i].Ndims() == 0 :: r.st.arrays[i] == st.arrays[i])
    decreases |events|
  {
    if events != [] { RunKeepsLengths(props, isData, st, events[..|events| - 1]); }
  }

  // ----- Runs that crash -----

  /** Event n of the run crashes, as the dimensions, sizes and shapes tell. */
  predicate CrashesAt(props: seq<Prop>, isData: bool, h: Head, events: seq<Event>, n: nat)
    requires n < |events|
  {
    Crashes(props, isData, HeadAfter(props, isData, h, events[..n]), events[n])
  }

  /** The run crashes exactly if some accepted resize changes a negative number of members. */
  lemma {:induction false} RunCrashesIff(props: seq<Prop>, isData: bool, st: State, events: seq<Event>)
    ensures AfterAll(props, isData, st, events).Crashed? <==>
      exists n :: 0 <= n < |events| && CrashesAt(props, isData, HeadOf(st), events, n)
    decreases |events|
  {
    if events != [] {
      var m := |events| - 1;
      var init := events[..m];
      RunCrashesIff(props, isData, st, init);
      var h := HeadOf(st);
      forall n | 0 <= n < m ensures CrashesAt(props, isData, h, init, n) == CrashesAt(props, isData, h, events, n) {
        assert init[..n] == events[..n] && init[n] == events[n];
      }
      assert CrashesAt(props, isData, h, events, m) ==
        Crashes(props, isData, HeadAfter(props, isData, h, init), events[m]);
      if AfterAll(props, isData, st, init).Crashed? {
        var n :| 0 <= n < m && CrashesAt(props, isData, h, init, n);
        assert CrashesAt(props, isData, h, events, n);
      }
    }
  }

  /** Sizes that fit in an int. */
  predicate AreInts(sizes: seq<int>) {
    forall n | 0 <= n < |sizes| :: INT_MIN <= sizes[n] < INT_LIMIT
  }

  /** The events that a caller can cause. */
  predicate Callable(events: seq<Event>) {
    forall n | 0 <= n < |events| && events[n].Resize? :: AreInts(events[n].sizes)
  }

  /** An instance can be created with these dimensions. */
  predicate Creatable(props: seq<Prop>, dims: seq<nat>) {
    AreInts(dims) && EvalOk(props, dims) && forall i | 0 <= i < |props| :: Allocatable(props[i], dims)
  }

  function Created(props: seq<Prop>, dims: seq<nat>): State {
    State(dims, seq(|props|, i requires 0 <= i < |props| => ArrayAfter(props[i], [], dims)), false)
  }

  /** New instances have arrays of the right lengths. */
  lemma CreatedHasLengths(props: seq<Prop>, dims: seq<nat>)
    ensures HasLengths(props, Created(props, dims))
  {}

  /** After any run of a new instance that does not crash, the members of each array with regular dimensions are
      exactly those of the index tuples of its shape, each at its row-major position. */
  lemma RunIndexesMembers(props: seq<Prop>, isData: bool, dims: seq<nat>, events: seq<Event>, i: nat)
    requires AfterAll(props, isData, Created(props, dims), events).Runs? && i < |props| && props[i].Ndims() > 0
    requires Regular(props[i], AfterAll(props, isData, Created(props, dims), events).st.dims)
    ensures var st := AfterAll(props, isData, Created(props, dims), events).st;
      i < |st.arrays| && var a, shape := st.arrays[i], Shape(props[i], st.dims);
      && |a| == Product(shape)
      && (forall idx | InBounds(idx, shape) :: 0 <= Ravel(idx, shape) < |a| && Unravel(Ravel(idx, shape), shape) == idx)
      && forall k | 0 <= k < |a| :: InBounds(Unravel(k, shape), shape) && Ravel(Unravel(k, shape), shape) == k
  {
    CreatedHasLengths(props, dims);
    RunKeepsLengths(props, isData, Created(props, dims), events);
    var st := AfterAll(props, isData, Created(props, dims), events).st;
    var shape := Shape(props[i], st.dims);
    RegularMembers(props[i], st.dims);
    forall idx | InBounds(idx, shape)
      ensures 0 <= Ravel(idx, shape) < Product(shape) && Unravel(Ravel(idx, shape), shape) == idx
    {
      RavelInBounds(idx, shape);
      UnravelRavel(idx, shape);
    }
    forall k | 0 <= k < Product(shape)
      ensures InBounds(Unravel(k, shape), shape) && Ravel(Unravel(k, shape), shape) == k
    {
      RavelUnravel(k, shape);
    }
  }

  /** Dimensions to which an instance can be resized. */
  predicate IsAccepted(props: seq<Prop>, dims: seq<nat>, n: nat) {
    |dims| == n && AreInts(dims) && EvalOk(props, dims)
  }

  /** Numbers of members are never negative, or are so for all dimensions alike. */
  ghost predicate Harmless(props: seq<Prop>, n: nat) {
    forall d: seq<nat>, e: seq<nat> | IsAccepted(props, d, n) && IsAccepted(props, e, n) :: !AnyDisturbed(props, d, e)
  }

  lemma {:induction false} RunStaysAccepted(props: seq<Prop>, isData: bool, dims: seq<nat>, events: seq<Event>)
    requires Creatable(props, dims) && Callable(events)
    ensures IsAccepted(props, HeadAfter(props, isData, Head(dims, false), events).dims, |dims|)
    decreases |events|
  {
    if events != [] { RunStaysAccepted(props, isData, dims, events[..|events| - 1]); }
  }

  lemma HarmlessRuns(props: seq<Prop>, isData: bool, dims: seq<nat>, events: seq<Event>)
    requires Creatable(props, dims) && Callable(events) && Harmless(props, |dims|)
    ensures AfterAll(props, isData, Created(props, dims), events).Runs?
  {
    var h := Head(dims, false);
    RunCrashesIff(props, isData, Created(props, dims), events);
    forall n | 0 <= n < |events| ensures !CrashesAt(props, isData, h, events, n) {
      RunStaysAccepted(props, isData, dims, events[..n]);
      RunStaysAccepted(props, isData, dims, events[..n + 1]);
      assert events[..n + 1][..n] == events[..n];
    }
  }

  /** Resizing to d and then to e. */
  lemma TwoResizesCrash(props: seq<Prop>, dims: seq<nat>, d: seq<nat>, e: seq<nat>)
    requires Creatable(props, dims) && IsAccepted(props, d, |dims|) && IsAccepted(props, e, |dims|)
    requires AnyDisturbed(props, d, e)
    ensures AfterAll(props, true, Created(props, dims), [Resize(d), Resize(e)]).Crashed?
  {
    var h, events := Head(dims, false), [Resize(d), Resize(e)];
    assert events[..1] == [Resize(d)] && [Resize(d)][..0] == [];
    assert Merged(dims, d) == d && Merged(d, e) == e;
    assert HeadAfter(props, true, h, []) == h;
    assert HeadAfter(props, true, h, [Resize(d)]) == Head(d, false);
    assert CrashesAt(props, true, h, events, 1);
    RunCrashesIff(props, true, Created(props, dims), events);
  }

  /** No run of a new instance crashes exactly if its shapes are harmless. */
  lemma NoRunCrashesIff(props: seq<Prop>, dims: seq<nat>)
    requires Creatable(props, dims)
    ensures (forall events | Callable(events) :: AfterAll(props, true, Created(props, dims), events).Runs?) <==>
      Harmless(props, |dims|)
  {
    if Harmless(props, |dims|) {
      forall events | Callable(events) ensures AfterAll(props, true, Created(props, dims), events).Runs? {
        HarmlessRuns(props, true, dims, events);
      }
    } else {
      var d: seq<nat>, e: seq<nat> :|
        IsAccepted(props, d, |dims|) && IsAccepted(props, e, |dims|) && AnyDisturbed(props, d, e);
      TwoResizesCrash(props, dims, d, e);
      assert Callable([Resize(d), Resize(e)]);
    }
  }

  /** Resizing twice to the same sizes, from a new instance. */
  lemma SameSizesRun(props: seq<Prop>, dims: seq<nat>, d: seq<nat>)
    requires Creatable(props, dims) && |d| == |dims|
    ensures AfterAll(props, true, Created(props, dims), [Resize(d), Resize(d)]).Runs?
  {
    var h, events := Head(dims, false), [Resize(d), Resize(d)];
    RunCrashesIff(props, true, Created(props, dims), events);
    assert events[..1] == [Resize(d)] && [Resize(d)][..0] == [] && events[..0] == [];
    assert Merged(dims, d) == d && Merged(d, d) == d;
    assert HeadAfter(props, true, h, []) == h;
    forall i | 0 <= i < |props| ensures !Disturbs(props[i], dims, d) {
      if props[i].Ndims() > 0 { SmallSizeIsInt32(IntProduct(Values(props[i].shape, dims))); }
    }
    assert HeadAfter(props, true, h, [Resize(d)]).dims in {dims, d};
  }

  function LessTwo(dims: seq<nat>): Option<int> {
    if dims == [] then None else Some(dims[0] as int - 2)
  }

  /** The shape N-2 for the sizes 5, 1 and 5, and for the sizes 5, 1 and 1. */
  lemma CrashExample()
    ensures var p := Prop(Int, 8, [LessTwo]);
      && Creatable([p], [5])
      && AfterAll([p], true, Created([p], [5]), [Resize([1]), Resize([5])]).Crashed?
      && AfterAll([p], true, Created([p], [5]), [Resize([1]), Resize([1])]).Runs?
  {
    var p := Prop(Int, 8, [LessTwo]);
    ShapeOfOne(p, 5, 3);
    ShapeOfOne(p, 1, -1);
    SameSizesRun([p], [5], [1]);
    assert Disturbs([p][0], [1], [5]);
    TwoResizesCrash([p], [5], [1], [5]);
  }

  lemma ShapeOfOne(p: Prop, size: nat, value: int)
    requires |p.shape| == 1 && p.shape[0]([size]) == Some(value) && INT_MIN < value < INT_LIMIT
    ensures EvalOk([p], [size]) && Members(Values(p.shape, [size])) == value
    ensures value >= 0 ==> Allocatable(p, [size])
  {
    var v := Values(p.shape, [size]);
    assert v == [value] && v[..0] == [] && IntProduct([]) == 1;
    Int32Fits(value);
    if value >= 0 { DivModUnique(0, SIZE_MODULUS, value); }
  }
}
