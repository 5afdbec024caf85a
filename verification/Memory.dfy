/** Byte-addressed memory blocks and the slots that strided arrays occupy in them. */
module Memory {
  import opened MixedRadix

  newtype Byte = x: int | 0 <= x < 256

  /** Address of the k-th element, in row-major order, of a strided array. */
  function SlotAddr(base: int, shape: seq<nat>, strides: seq<int>, k: nat): int
    requires |shape| == |strides|
  {
    base + Dot(Unravel(k, shape), strides)
  }

  /** The first n slots lie inside a block of the given length. */
  ghost predicate SlotsFit(length: nat, base: int, shape: seq<nat>, strides: seq<int>, size: nat, n: nat)
    requires |shape| == |strides|
  {
    forall k: nat | k < n :: 0 <= SlotAddr(base, shape, strides, k) <= length - size
  }

  /** C-continuous slots follow each other without gaps. */
  lemma CSlotAddr(base: int, shape: seq<nat>, size: nat, k: nat)
    requires k < Product(shape) || k == 0
    ensures SlotAddr(base, shape, CStrides(shape, size), k) == base + k * size
  {
    DotCStrides(Unravel(k, shape), shape, size);
    if k < Product(shape) {
      RavelUnravel(k, shape);
    } else {
      UnravelZero(shape);
      RavelZeros(shape);
    }
  }

  /** Copies n bytes between two blocks (memcpy). */
  method CopyBytes(dst: array<Byte>, d: int, src: array<Byte>, s: int, n: nat)
    requires dst != src
    requires n == 0 || (0 <= d && d + n <= dst.Length && 0 <= s && s + n <= src.Length)
    modifies dst
    ensures n != 0 ==> dst[d..d + n] == src[s..s + n]
    ensures forall i | 0 <= i < dst.Length && !(d <= i < d + n) :: dst[i] == old(dst[i])
  {
    var j := 0;
    while j < n
      invariant 0 <= j <= n
      invariant n != 0 ==> dst[d..d + j] == src[s..s + j]
      invariant forall i | 0 <= i < dst.Length && !(d <= i < d + j) :: dst[i] == old(dst[i])
    {
      dst[d + j] := src[s + j];
      j := j + 1;
    }
  }
}
