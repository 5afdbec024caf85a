/** The memory layout of instances in plain numbers: where each field begins, how many bytes it takes, and what
    its type is aligned to (`dlite-entity.c`, `dlite-type.c`). */
module LayoutFields {
  import opened Options
  import opened Layouts

  /** The types of fixed sizes, on a 64 bit platform. */
  const SCALARS: set<(DType, nat)> := {
    (Bool, 1), (Int, 1), (Int, 2), (Int, 4), (Int, 8), (UInt, 1), (UInt, 2), (UInt, 4), (UInt, 8),
    (Float, 4), (Float, 8), (Float, 16), (StringPtr, 8), (Ref, 8),
    (DType.Dimension, 16), (DType.Property, 64), (DType.Relation, 40)
  }

  /** Numbers are aligned to their size, pointers and records of pointers to 8 bytes, bytes to nothing. */
  function Natural(t: DType, size: nat): nat {
    match t
    case Blob | FixString => 1
    case Bool | Int | UInt | Float => size
    case StringPtr | Ref | Dimension | Property | Relation => 8
  }

  /** The alignments of the types: those of fixed sizes are known for these, blobs and texts for all sizes. */
  lemma AlignmentIsNatural(t: DType, size: nat)
    ensures Alignment(t, size) > 0 <==> t.Blob? || t.FixString? || (t, size) in SCALARS
    ensures Alignment(t, size) > 0 ==> Alignment(t, size) == Natural(t, size)
  {}

  /** A property with dimensions is a pointer. */
  function Bytes(p: Prop): nat {
    if p.shape != [] then 8 else p.size
  }

  function Multiple(p: Prop): nat {
    if p.shape != [] then 8 else Natural(p.dtype, p.size)
  }

  /** Where the fields before property i end. */
  function EndBefore(m: Meta, l: Layout, i: nat): nat
    requires i <= |m.props| == |l.propoffsets|
  {
    if i > 0 then l.propoffsets[i - 1] + Bytes(m.props[i - 1])
    else if m.ndimensions > 0 then l.dimoffset + 8 * m.ndimensions
    else m.header
  }

  /** The offsets of the first properties do not depend on the others. */
  lemma {:induction false} OffsetsOfFirst(props: seq<Prop>, offset: nat, i: nat)
    requires Known(props) && i <= |props|
    ensures PropOffsets(props[..i], offset) == PropOffsets(props, offset)[..i]
    decreases |props|
  {
    if i < |props| {
      var rest := props[..|props| - 1];
      OffsetsOfFirst(rest, offset, i);
      assert rest[..i] == props[..i];
      assert PropOffsets(props, offset)[..|rest|] == PropOffsets(rest, offset);
    } else {
      assert props[..i] == props;
    }
  }

  lemma OffsetIs(props: seq<Prop>, offset: nat, i: nat)
    requires Known(props) && i < |props|
    ensures PropOffsets(props, offset)[i] == Pad(SlotAlign(props[i]), PropsEnd(props[..i], offset))
  {
    OffsetsOfFirst(props, offset, i + 1);
    LastOffset(props[..i + 1], offset);
    assert props[..i + 1][..i] == props[..i];
    assert PropOffsets(props, offset)[..i + 1][i] == PropOffsets(props, offset)[i];
  }

  lemma LastOffset(props: seq<Prop>, offset: nat)
    requires Known(props) && props != []
    ensures var n := |props| - 1;
      PropOffsets(props, offset)[n] == Pad(SlotAlign(props[n]), PropsEnd(props[..n], offset))
  {}

  lemma EndIs(props: seq<Prop>, offset: nat, i: nat)
    requires Known(props) && i < |props|
    ensures PropsEnd(props[..i + 1], offset) == Pad(SlotAlign(props[i]), PropsEnd(props[..i], offset)) + Bytes(props[i])
  {
    assert props[..i + 1][..i] == props[..i];
  }

  lemma OffsetAt(props: seq<Prop>, offset: nat, i: nat)
    requires Known(props) && i < |props|
    ensures PropOffsets(props, offset)[i] == Pad(SlotAlign(props[i]), PropsEnd(props[..i], offset))
    ensures PropsEnd(props[..i + 1], offset) == PropOffsets(props, offset)[i] + Bytes(props[i])
  {
    OffsetIs(props, offset, i);
    EndIs(props, offset, i);
  }

  lemma EndsBefore(m: Meta, i: nat)
    requires Known(m.props) && i <= |m.props|
    ensures EndBefore(m, LayoutOf(m), i) == PropsEnd(m.props[..i], DimsEnd(m))
  {
    if i > 0 { OffsetAt(m.props, DimsEnd(m), i - 1); }
  }

  /** The dimensions begin at the first word after the header, and each property at the first multiple of its
      alignment after the field before it. */
  lemma FieldsAreNext(m: Meta, i: nat)
    requires Known(m.props) && i < |m.props|
    ensures var l := LayoutOf(m);
      && (m.ndimensions > 0 ==> m.header <= l.dimoffset < m.header + 8 && l.dimoffset % 8 == 0)
      && Multiple(m.props[i]) > 0 && l.propoffsets[i] % Multiple(m.props[i]) == 0
      && EndBefore(m, l, i) <= l.propoffsets[i] < EndBefore(m, l, i) + Multiple(m.props[i])
  {
    var p := m.props[i];
    PadWord(m.header);
    AlignmentIsNatural(p.dtype, p.size);
    SlotAlignIsPow2(p);
    OffsetAt(m.props, DimsEnd(m), i);
    EndsBefore(m, i);
    PadIsNext(SlotAlign(p), PropsEnd(m.props[..i], DimsEnd(m)));
  }

  lemma {:induction false} EndsGrow(m: Meta, i: nat, j: nat)
    requires Known(m.props) && i <= j <= |m.props|
    ensures EndBefore(m, LayoutOf(m), i) <= EndBefore(m, LayoutOf(m), j)
    decreases j
  {
    if i < j {
      EndsGrow(m, i, j - 1);
      FieldsAreNext(m, j - 1);
    }
  }

  /** No two properties share a byte: a pointer or value ends before the next property begins. */
  lemma FieldsAreDisjoint(m: Meta, i: nat, j: nat)
    requires Known(m.props) && i < j < |m.props|
    ensures var l := LayoutOf(m);
      && m.header <= l.propoffsets[i]
      && l.propoffsets[i] + (if m.props[i].shape != [] then 8 else m.props[i].size) <= l.propoffsets[j]
      && l.propoffsets[j] + (if m.props[j].shape != [] then 8 else m.props[j].size) <= l.reloffset
  {
    EndsGrow(m, 0, i);
    EndsGrow(m, i + 1, j);
    EndsGrow(m, j + 1, |m.props|);
    FieldsAreNext(m, i);
    FieldsAreNext(m, j);
    RestIsNext(m, None);
  }

  /** The fields after the properties: relations, dimensions of properties, and what only metadata have; each begins
      at the first word after the one before it, and all are inside the size. */
  lemma RestIsNext(m: Meta, n: Option<nat>)
    requires Known(m.props)
    ensures var l, end := LayoutOf(m), EndBefore(m, LayoutOf(m), |m.props|);
      && (if m.nrelations == 0 then l.reloffset == end else end <= l.reloffset < end + 8 && l.reloffset % 8 == 0)
      && (l.propdimsoffset % 8 == 0 && l.propdimindsoffset % 8 == 0 && InstanceSize(l, n) % 8 == 0)
      && 0 <= l.propdimsoffset - (l.reloffset + 8 * m.nrelations) < 8
      && 0 <= l.propdimindsoffset - (l.propdimsoffset + 8 * NPropDims(m.props)) < 8
      && 0 <= InstanceSize(l, n) - (l.propdimindsoffset + (if n.Some? then 16 * n.value else 0)) < 8
  {
    var l := LayoutOf(m);
    EndsBefore(m, |m.props|);
    assert m.props[..|m.props|] == m.props;
    RestOffsets(m, n);
    PadWord(l.propdimindsoffset + if n.Some? then 2 * n.value * WORD else 0);
  }

  /** The word for a dimension of a property is between these fields. */
  lemma DimWordsFit(m: Meta, i: nat, k: nat)
    requires Known(m.props) && i < |m.props| && k < |m.props[i].shape|
    ensures var l := LayoutOf(m);
      l.propdimsoffset + 8 * DimSlot(m.props, i, k) + 8 <= l.propdimindsoffset
  {
    DimSlotsAreDisjoint(m.props, i, k, i, k);
    RestIsNext(m, None);
  }
}
