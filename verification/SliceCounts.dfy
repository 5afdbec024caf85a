/** How many elements `dlite_array_slice()` takes, and how many its documentation promises. */
module SliceCounts {
  import opened MixedRadix
  import opened Options
  import opened Slices

  /** A bound that is not given, that is a position of the dimension, or that counts from the back of a
      dimension whose size divides 2^64. */
  predicate IsBound(v: Option<int>, n: nat) {
    v.Some? ==> 0 <= v.value <= n || (v.value < 0 <= v.value + n && SIZE_T % n == 0)
  }

  /** The documented meaning of a bound. */
  function Position(v: Option<int>, n: nat, default: nat): int {
    if v.None? then default else if v.value < 0 then v.value + n else v.value
  }

  /** The documented range begins at Low and ends before High. */
  function Low(c: Cut): int {
    Position(if c.step > 0 then c.start else c.stop, c.n, 0)
  }

  function High(c: Cut): int {
    Position(if c.step > 0 then c.stop else c.start, c.n, c.n)
  }

  predicate HasBounds(c: Cut) {
    IsBound(c.start, c.n) && IsBound(c.stop, c.n)
  }

  /** The documented number of elements: every |step|-th one of the range. */
  function DocumentedCount(c: Cut): nat
    requires c.step != 0
  {
    if Low(c) < High(c) then CeilDiv(High(c) - Low(c), Abs(c.step)) else 0
  }

  /** The length of the range that is taken where the documented one is empty: a low bound at the end wraps to
      0, a high bound of 0 to the end, and bounds in the wrong order are taken in the other direction. */
  function WrappedLength(c: Cut): int {
    if c.n == 0 then 2
    else
      var lo, hi := if Low(c) == c.n then 0 else Low(c), if High(c) == 0 then c.n else High(c);
      if lo < hi then hi - lo else lo - hi + 2
  }

  /** When the number of elements is the documented one: for a range with elements as for rounding; for an empty
      one if the range that is taken instead is short enough to be rounded to nothing. */
  predicate CountsAsDocumented(c: Cut)
    requires c.step != 0
  {
    if Low(c) < High(c) then
      var l := High(c) - Low(c);
      c.step == -1 || (c.step > 0 && (l % c.step == 0 || l % c.step + c.step / 2 >= c.step))
    else WrappedLength(c) < if c.step > 0 then c.step - c.step / 2 else -c.step + (-c.step) / 2
  }

  lemma BoundIndex(v: int, n: nat)
    requires 0 < n <= INT_MAX && IsBound(Some(v), n)
    ensures var p := Position(Some(v), n, 0); 0 <= p <= n && IndexMod(v, n) == if p == n then 0 else p
  {
    if v < 0 {
      NegativeIndexIff(n, -v);
    } else if v == n {
      DivModUnique(1, n, 0);
    } else {
      DivModUnique(0, n, v);
    }
  }

  lemma LowIndex(v: Option<int>, n: nat)
    requires 0 < n <= INT_MAX && IsBound(v, n)
    ensures var p, s := Position(v, n, 0), if v.Some? then ToInt(IndexMod(v.value, n)) else 0;
      0 <= p <= n && s == if p == n then 0 else p
  {
    if v.Some? {
      BoundIndex(v.value, n);
      ToIntOfSmall(IndexMod(v.value, n));
    }
  }

  lemma HighIndex(v: Option<int>, n: nat)
    requires 0 < n <= INT_MAX && IsBound(v, n)
    ensures var p, s := Position(v, n, n), ToInt(Pred(if v.Some? then IndexMod(v.value, n) else n));
      0 <= p <= n && (if s < 0 then s + n else s) == (if p == 0 then n else p) - 1
  {
    if v.Some? { BoundIndex(v.value, n); }
    var i := if v.Some? then IndexMod(v.value, n) else n;
    if i > 0 { ToIntOfSmall(i - 1); } else { ToIntOfSmall(0); }
  }

  /** The length of the range that is taken. */
  lemma TakenLength(c: Cut)
    requires c.Defined() && c.step != 0 && HasBounds(c)
    ensures c.n > 0 ==> 0 <= Low(c) <= c.n && 0 <= High(c) <= c.n
    ensures c.n == 0 ==> Low(c) == High(c) == 0
    ensures c.Length() == if Low(c) < High(c) then High(c) - Low(c) else WrappedLength(c)
  {
    if c.n == 0 {
      ToIntOfSmall(0);
    } else {
      LowIndex(if c.step > 0 then c.start else c.stop, c.n);
      HighIndex(if c.step > 0 then c.stop else c.start, c.n);
    }
  }

  /** A range is rounded to nothing exactly if it is shorter than half a step for positive steps, and than one
      and a half for negative ones. */
  lemma RoundedToNothingIff(l: nat, d: int)
    requires l > 0 && d != 0
    ensures RoundedCount(l, d) == 0 <==> l < if d > 0 then d - d / 2 else -d + (-d) / 2
  {
    var a := Abs(d);
    DivModIdentity(l, a);
    QuotientIsNat(l, a);
    if d > 0 { NothingUp(l / a, a, l % a); } else { NothingDown(l / a, a, l % a); }
  }

  lemma NothingUp(q: nat, d: nat, r: nat)
    requires d > 0 && r < d
    ensures RoundedCount(q * d + r, d) == 0 <==> q * d + r < d - d / 2
  {
    CountUp(q, d, r);
    if q > 0 { MulMonotonic(1, q, d); }
  }

  lemma NothingDown(q: nat, d: nat, r: nat)
    requires d > 0 && r < d && q + r > 0
    ensures RoundedCount(q * d + r, -(d as int)) == 0 <==> q * d + r < d + d / 2
  {
    CountDown(q, d, r);
    if q > 1 { MulMonotonic(2, q, d); }
  }

  /** The number of elements of a slice is the documented one exactly under a condition on start, stop, step and
      the size of the dimension. */
  lemma CountIsDocumentedIff(c: Cut)
    requires c.Defined() && c.step != 0 && HasBounds(c)
    ensures c.Count() == DocumentedCount(c) <==> CountsAsDocumented(c)
  {
    TakenLength(c);
    if Low(c) < High(c) { RoundedCountIff(c.Length(), c.step); } else { RoundedToNothingIff(c.Length(), c.step); }
  }

  /** Every slice with step 1 of an empty range takes something: at least one element, and as many as there are
      if start and stop are 0. */
  lemma EmptyRangeTakesSome(c: Cut)
    requires c.Defined() && c.step == 1 && HasBounds(c) && Low(c) >= High(c)
    ensures c.Count() == WrappedLength(c) > 0
    ensures c.n > 0 && Low(c) == High(c) == 0 ==> c.Count() == c.n
  {
    TakenLength(c);
    var l := c.Length();
    DivModUnique(l, 1, 0);
    CountUp(l, 1, 0);
  }

  /** The slice 2:2 of five elements takes two, the slice 0:0 all of them. */
  lemma EmptyRangeExample()
    ensures var c := Cut(5, Some(2), Some(2), 1); c.Defined() && DocumentedCount(c) == 0 && c.Count() == 2
    ensures var c := Cut(5, Some(0), Some(0), 1); c.Defined() && DocumentedCount(c) == 0 && c.Count() == 5
  {
    EmptyRangeTakesSome(Cut(5, Some(2), Some(2), 1));
    EmptyRangeTakesSome(Cut(5, Some(0), Some(0), 1));
  }

  /** A slice of an empty dimension is empty exactly if the step is at least 5 or at most -2. */
  lemma EmptyDimensionIff(step: int)
    requires IsInt(step) && step != 0
    ensures var c := Cut(0, None, None, step); c.Defined() && (c.Count() == 0 <==> step >= 5 || step <= -2)
  {
    CountIsDocumentedIff(Cut(0, None, None, step));
  }

  /** All other bounds, negative ones and those beyond the dimension, stand for their remainders: the slice is
      the same as with these. */
  lemma BoundsWrap(c: Cut)
    requires c.Defined() && c.step != 0 && c.n > 0
    ensures var w := Cut(c.n, Wrapped(c.start, c.n), Wrapped(c.stop, c.n), c.step);
      && w.Defined() && HasBounds(w)
      && w.First() == c.First() && w.Last() == c.Last() && w.Count() == c.Count()
  {
    if c.start.Some? { DivModUnique(0, c.n, IndexMod(c.start.value, c.n)); }
    if c.stop.Some? { DivModUnique(0, c.n, IndexMod(c.stop.value, c.n)); }
  }

  function Wrapped(v: Option<int>, n: nat): Option<int>
    requires n > 0 && (v.Some? ==> IsInt(v.value))
  {
    if v.None? then None else Some(IndexMod(v.value, n))
  }
}
