/** Texts and other sequences that are put together from parts. */
module Strings {
  /** Equal texts whose first parts have the same length have equal parts. */
  lemma {:induction false} SplitSame<T>(a: seq<T>, b: seq<T>, x: seq<T>, y: seq<T>)
    requires |a| == |b| && a + x == b + y
    ensures a == b && x == y
  {
    assert a == (a + x)[..|a|] && b == (b + y)[..|b|];
    assert x == (a + x)[|a|..] && y == (b + y)[|b|..];
  }

  /** The same for second parts of the same length. */
  lemma SplitSameEnd<T>(a: seq<T>, b: seq<T>, x: seq<T>, y: seq<T>)
    requires |x| == |y| && a + x == b + y
    ensures a == b && x == y
  {
    assert |a| == |b|;
    SplitSame(a, b, x, y);
  }

  /** All parts one after the other. */
  function Concat<T>(parts: seq<seq<T>>): seq<T> {
    if parts == [] then [] else parts[0] + Concat(parts[1..])
  }

  /** Parts of the same lengths that give the same are the same. */
  lemma {:induction false} PartsAreSame<T>(a: seq<seq<T>>, b: seq<seq<T>>)
    requires |a| == |b| && (forall i | 0 <= i < |a| :: |a[i]| == |b[i]|) && Concat(a) == Concat(b)
    ensures a == b
    decreases |a|
  {
    if a != [] {
      SplitSame(a[0], b[0], Concat(a[1..]), Concat(b[1..]));
      PartsAreSame(a[1..], b[1..]);
      assert a == [a[0]] + a[1..] && b == [b[0]] + b[1..];
    }
  }

  /** Total length of the parts. */
  function Total<T>(parts: seq<seq<T>>): nat {
    if parts == [] then 0 else |parts[0]| + Total(parts[1..])
  }

  lemma {:induction false} ConcatLength<T>(parts: seq<seq<T>>)
    ensures |Concat(parts)| == Total(parts)
    decreases |parts|
  {
    if parts != [] { ConcatLength(parts[1..]); }
  }

  lemma {:induction false} TotalUpdate<T>(parts: seq<seq<T>>, i: nat, x: seq<T>)
    requires i < |parts|
    ensures Total(parts[i := x]) == Total(parts) - |parts[i]| + |x|
    decreases |parts|
  {
    if i == 0 {
      assert parts[0 := x][1..] == parts[1..];
    } else {
      assert parts[i := x][1..] == parts[1..][i - 1 := x] && parts[i := x][0] == parts[0];
      TotalUpdate(parts[1..], i - 1, x);
    }
  }

  lemma {:induction false} SameSizesSameTotal<T>(a: seq<seq<T>>, b: seq<seq<T>>)
    requires |a| == |b| && forall i | 0 <= i < |a| :: |a[i]| == |b[i]|
    ensures Total(a) == Total(b)
    decreases |a|
  {
    if a != [] { SameSizesSameTotal(a[1..], b[1..]); }
  }

  /** A single part of unknown size gets it from the total. */
  lemma LastSizeFollows<T>(a: seq<seq<T>>, b: seq<seq<T>>, k: nat)
    requires |a| == |b| && k < |a| && (forall i | 0 <= i < |a| && i != k :: |a[i]| == |b[i]|) && Concat(a) == Concat(b)
    ensures |a[k]| == |b[k]|
  {
    ConcatLength(a);
    ConcatLength(b);
    TotalUpdate(a, k, []);
    TotalUpdate(b, k, []);
    SameSizesSameTotal(a[k := []], b[k := []]);
  }
}
