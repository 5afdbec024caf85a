/** Memory layout of instances (`dlite-entity.c`, `dlite-type.c`): padding by bit masks, and the offsets that
    metadata assign to the parts of their instances. Sizes are those of a 64 bit platform. */
module Layouts {
  import opened Options
  import opened MixedRadix

  const WORD: nat := 8
  const RELATION_SIZE: nat := 40

  // ----- Padding -----

  /** The bitwise and of two numbers. */
  function BitAnd(a: nat, b: nat): nat {
    if a == 0 || b == 0 then 0 else 2 * BitAnd(a / 2, b / 2) + (if a % 2 == 1 && b % 2 == 1 then 1 else 0)
  }

  function Pow2(k: nat): (p: nat)
    ensures p > 0
  {
    if k == 0 then 1 else 2 * Pow2(k - 1)
  }

  ghost predicate IsPow2(a: nat) {
    exists k :: a == Pow2(k)
  }

  /** The macro padding_at() and the last line of dlite_type_padding_at(). */
  function Padding(align: nat, offset: nat): nat
    requires align > 0
  {
    MaskIsSmall(offset, align - 1);
    BitAnd(align - BitAnd(offset, align - 1), align - 1)
  }

  lemma {:induction false} MaskIsSmall(a: nat, b: nat)
    ensures BitAnd(a, b) <= b
    decreases a
  {
    if a > 0 && b > 0 { MaskIsSmall(a / 2, b / 2); }
  }

  lemma {:induction false} MaskIsMod(a: nat, k: nat)
    ensures BitAnd(a, Pow2(k) - 1) == a % Pow2(k)
    decreases k
  {
    if k > 0 {
      var p := Pow2(k - 1);
      MaskIsMod(a / 2, k - 1);
      assert (2 * p - 1) / 2 == p - 1;
      HalfMod(a, p);
    }
  }

  lemma HalfMod(a: nat, p: nat)
    requires p > 0
    ensures a % (2 * p) == 2 * ((a / 2) % p) + a % 2
  {
    var q, r := (a / 2) / p, (a / 2) % p;
    assert a / 2 == q * p + r;
    assert a == 2 * (q * p + r) + a % 2;
    assert 2 * (q * p) == q * (2 * p);
    DivModUnique(q, 2 * p, 2 * r + a % 2);
  }

  lemma {:induction false} MaskBelow(a: nat)
    ensures BitAnd(a, a) == a
    decreases a
  {
    if a > 0 { MaskBelow(a / 2); }
  }

  /** A number and its predecessor have a bit in common unless the number is a power of two. */
  lemma {:induction false} PredecessorMask(a: nat)
    requires a > 0
    ensures BitAnd(a, a - 1) == 0 <==> IsPow2(a)
    decreases a
  {
    if a == 1 {
      assert a == Pow2(0);
    } else if a % 2 == 0 {
      PredecessorMask(a / 2);
      assert (a - 1) / 2 == a / 2 - 1;
      if IsPow2(a / 2) { var k: nat :| a / 2 == Pow2(k); assert a == Pow2(k + 1); }
      if IsPow2(a) { var k: nat :| a == Pow2(k); assert a / 2 == Pow2(k - 1); }
    } else {
      MaskBelow(a / 2);
      assert (a - 1) / 2 == a / 2;
      forall k: nat ensures a != Pow2(k) {
        if k > 0 { assert Pow2(k) == 2 * Pow2(k - 1); }
      }
    }
  }

  lemma RoundUp(offset: nat, align: nat)
    requires align > 0
    ensures (offset + (align - offset % align) % align) % align == 0
  {
    var q, r := offset / align, offset % align;
    assert offset == q * align + r;
    if r > 0 {
      DivModUnique(0, align, align - r);
      MulDistributes(q, 1, align);
      DivModUnique(q + 1, align, 0);
    } else {
      DivModUnique(1, align, 0);
    }
  }

  /** For a power of two the padding leads to the first multiple that is not before the offset. */
  lemma PaddingAligns(align: nat, offset: nat)
    requires align > 0 && IsPow2(align)
    ensures (offset + Padding(align, offset)) % align == 0 && Padding(align, offset) < align
  {
    var k: nat :| align == Pow2(k);
    MaskIsMod(offset, k);
    MaskIsMod(align - offset % align, k);
    RoundUp(offset, align);
  }

  /** Whether the padding aligns an offset. */
  ghost predicate Aligns(align: nat, offset: nat)
    requires align > 0
  {
    (offset + Padding(align, offset)) % align == 0
  }

  lemma NotAlignedAtZero(align: nat)
    requires align > 0 && !IsPow2(align)
    ensures !Aligns(align, 0)
  {
    PredecessorMask(align);
    MaskIsSmall(align, align - 1);
    assert BitAnd(0, align - 1) == 0;
    DivModUnique(0, align, BitAnd(align, align - 1));
  }

  /** The padding aligns every offset exactly if the alignment is a power of two. */
  lemma PaddingAlignsIff(align: nat)
    requires align > 0
    ensures (forall offset: nat :: Aligns(align, offset)) <==> IsPow2(align)
  {
    if IsPow2(align) {
      forall offset: nat ensures Aligns(align, offset) { PaddingAligns(align, offset); }
    } else {
      NotAlignedAtZero(align);
    }
  }

  // ----- Alignment of types -----

  datatype DType = Blob | Bool | Int | UInt | Float | FixString | StringPtr | Ref | Dimension | Property | Relation

  /** dlite_type_get_alignment(); 0 on error. */
  function Alignment(t: DType, size: nat): nat {
    if t.Blob? || t.FixString? then 1
    else if t.Bool? then if size == 1 then 1 else 0
    else if t.Int? || t.UInt? then if size in {1, 2, 4, 8} then size else 0
    else if t.Float? then if size in {4, 8, 16} then size else 0
    else if t.StringPtr? || t.Ref? then if size == 8 then 8 else 0
    else if t.Dimension? then if size == 16 then 8 else 0
    else if t.Property? then if size == 64 then 8 else 0
    else if size == RELATION_SIZE then 8 else 0
  }

  lemma WordIsPow2()
    ensures IsPow2(1) && IsPow2(2) && IsPow2(4) && IsPow2(8) && IsPow2(16)
  {
    assert Pow2(0) == 1 && Pow2(1) == 2 && Pow2(2) == 4 && Pow2(3) == 8 && Pow2(4) == 16;
  }

  /** Known alignments are powers of two and, except for strings and blobs of any size, divide the size, so that
      the elements of an array of the type are aligned, too. */
  lemma AlignmentIsSound(t: DType, size: nat)
    ensures Alignment(t, size) > 0 ==> IsPow2(Alignment(t, size)) && size % Alignment(t, size) == 0
  {
    WordIsPow2();
  }

  // ----- Layout of the instances of some metadata -----

  /** The value of an expression at given dimensions, None for an expression that cannot be evaluated. */
  type Expr = seq<nat> -> Option<int>

  /** Description of a property: type and size of its elements, and its shape in terms of the dimensions of
      the instance. */
  datatype Prop = Prop(dtype: DType, size: nat, shape: seq<Expr>) {
    function Ndims(): nat { |shape| }
  }

  datatype Meta = Meta(header: nat, ndimensions: nat, props: seq<Prop>, nrelations: nat)

  datatype Layout =
    Layout(dimoffset: nat, propoffsets: seq<nat>, reloffset: nat, propdimsoffset: nat, propdimindsoffset: nat)

  /** Size and alignment of what an instance holds for a property: a pointer to the array, or the value. */
  function SlotSize(p: Prop): nat {
    if p.Ndims() > 0 then WORD else p.size
  }

  function SlotAlign(p: Prop): nat {
    if p.Ndims() > 0 then WORD else Alignment(p.dtype, p.size)
  }

  predicate Known(props: seq<Prop>) {
    forall i | 0 <= i < |props| :: SlotAlign(props[i]) > 0
  }

  function Pad(align: nat, offset: nat): nat
    requires align > 0
  {
    offset + Padding(align, offset)
  }

  /** End of the first properties, the first of them placed after offset. */
  function PropsEnd(props: seq<Prop>, offset: nat): nat
    requires Known(props)
  {
    if props == [] then offset
    else Pad(SlotAlign(props[|props| - 1]), PropsEnd(props[..|props| - 1], offset)) + SlotSize(props[|props| - 1])
  }

  /** Offset of each property. */
  function PropOffsets(props: seq<Prop>, offset: nat): (offsets: seq<nat>)
    requires Known(props)
    ensures |offsets| == |props|
  {
    if props == [] then []
    else
      var rest, p := props[..|props| - 1], props[|props| - 1];
      PropOffsets(rest, offset) + [Pad(SlotAlign(p), PropsEnd(rest, offset))]
  }

  function DimsEnd(m: Meta): nat {
    if m.ndimensions > 0 then Pad(WORD, m.header) + m.ndimensions * WORD else m.header
  }

  function NPropDims(props: seq<Prop>): nat {
    if props == [] then 0 else NPropDims(props[..|props| - 1]) + props[|props| - 1].Ndims()
  }

  /** What dlite_meta_init() computes. */
  function LayoutOf(m: Meta): Layout
    requires Known(m.props)
  {
    var end := PropsEnd(m.props, DimsEnd(m));
    var reloffset := if m.nrelations > 0 then Pad(WORD, end) else end;
    var propdims := Pad(WORD, reloffset + m.nrelations * WORD);
    Layout(if m.ndimensions > 0 then Pad(WORD, m.header) else 0, PropOffsets(m.props, DimsEnd(m)), reloffset, propdims,
           Pad(WORD, propdims + NPropDims(m.props) * WORD))
  }

  /** dlite_instance_size(): for instances that are metadata themselves, with n properties, there are two
      words more for each of these. */
  function InstanceSize(l: Layout, n: Option<nat>): nat {
    Pad(WORD, l.propdimindsoffset + if n.Some? then 2 * n.value * WORD else 0)
  }

  // ----- Soundness -----

  datatype Segment = Segment(start: nat, length: nat, align: nat) {
    function End(): nat { start + length }
  }

  /** The segments lie between the bounds in order, each at the first offset with its alignment. */
  predicate Packed(segments: seq<Segment>, from: nat, to: nat) {
    if segments == [] then from <= to
    else
      var s := segments[0];
      && s.align > 0 && from <= s.start < from + s.align && s.start % s.align == 0
      && Packed(segments[1..], s.End(), to)
  }

  /** End of the last segment. */
  function EndOf(segments: seq<Segment>, from: nat): nat {
    if segments == [] then from else segments[|segments| - 1].End()
  }

  lemma {:induction false} PackedAppend(a: seq<Segment>, b: seq<Segment>, from: nat, middle: nat, to: nat)
    requires Packed(a, from, middle) && Packed(b, EndOf(a, from), to)
    ensures Packed(a + b, from, to) && EndOf(a + b, from) == EndOf(b, EndOf(a, from))
    decreases |a|
  {
    if a == [] {
      assert a + b == b;
    } else {
      assert (a + b)[1..] == a[1..] + b && (a + b)[0] == a[0];
      assert EndOf(a[1..], a[0].End()) == EndOf(a, from);
      PackedAppend(a[1..], b, a[0].End(), middle, to);
    }
  }

  /** Packed segments are aligned, inside the bounds, and disjoint. */
  lemma {:induction false} PackedIsDisjoint(segments: seq<Segment>, from: nat, to: nat, i: nat, j: nat)
    requires Packed(segments, from, to) && i < j < |segments|
    ensures from <= segments[i].start && segments[i].End() <= segments[j].start && segments[j].End() <= to
    decreases |segments|
  {
    if i > 0 {
      PackedIsDisjoint(segments[1..], segments[0].End(), to, i - 1, j - 1);
    } else {
      PackedInside(segments[1..], segments[0].End(), to, j - 1);
    }
  }

  lemma {:induction false} PackedInside(segments: seq<Segment>, from: nat, to: nat, i: nat)
    requires Packed(segments, from, to) && i < |segments|
    ensures from <= segments[i].start && segments[i].End() <= to
    ensures segments[i].align > 0 && segments[i].start % segments[i].align == 0
    decreases |segments|
  {
    if i > 0 {
      PackedInside(segments[1..], segments[0].End(), to, i - 1);
    } else {
      PackedEnds(segments[1..], segments[0].End(), to);
    }
  }

  lemma {:induction false} PackedEnds(segments: seq<Segment>, from: nat, to: nat)
    requires Packed(segments, from, to)
    ensures from <= to
    decreases |segments|
  {
    if segments != [] { PackedEnds(segments[1..], segments[0].End(), to); }
  }

  /** The parts of an instance, in order; those that only metadata have come last. */
  function Segments(m: Meta, l: Layout, n: Option<nat>): seq<Segment>
    requires |l.propoffsets| == |m.props|
  {
    [Segment(0, m.header, WORD)] + WordPart(l.dimoffset, m.ndimensions, true)
    + PropSegments(m.props, l.propoffsets) + WordPart(l.reloffset, m.nrelations, true)
    + WordPart(l.propdimsoffset, NPropDims(m.props), false) + MetaSegments(l.propdimindsoffset, n)
  }

  function PropSegments(props: seq<Prop>, offsets: seq<nat>): seq<Segment>
    requires |props| == |offsets|
  {
    seq(|props|, i requires 0 <= i < |props| => Segment(offsets[i], SlotSize(props[i]), SlotAlign(props[i])))
  }

  /** Indices of the first dimensions of the properties, and DLITE_PROPOFFSETSOFFSET(). */
  function MetaSegments(start: nat, n: Option<nat>): seq<Segment> {
    if n.None? then []
    else [Segment(start, n.value * WORD, WORD), Segment(start + n.value * WORD, n.value * WORD, WORD)]
  }

  lemma PadIsNext(align: nat, offset: nat)
    requires align > 0 && IsPow2(align)
    ensures offset <= Pad(align, offset) < offset + align && Pad(align, offset) % align == 0
  {
    PaddingAligns(align, offset);
  }

  lemma OnePacked(align: nat, offset: nat, length: nat)
    requires align > 0 && IsPow2(align)
    ensures Packed([Segment(Pad(align, offset), length, align)], offset, Pad(align, offset) + length)
  {
    PadIsNext(align, offset);
    var s := [Segment(Pad(align, offset), length, align)];
    assert s[1..] == [];
  }

  lemma PropSegmentsSnoc(props: seq<Prop>, offsets: seq<nat>, p: Prop, offset: nat)
    requires |props| == |offsets|
    ensures PropSegments(props + [p], offsets + [offset])
      == PropSegments(props, offsets) + [Segment(offset, SlotSize(p), SlotAlign(p))]
  {}

  lemma {:induction false} PropsPacked(props: seq<Prop>, offset: nat)
    requires Known(props)
    ensures Packed(PropSegments(props, PropOffsets(props, offset)), offset, PropsEnd(props, offset))
    ensures EndOf(PropSegments(props, PropOffsets(props, offset)), offset) == PropsEnd(props, offset)
    decreases |props|
  {
    if props != [] {
      var rest, p := props[..|props| - 1], props[|props| - 1];
      var end := PropsEnd(rest, offset);
      PropsPacked(rest, offset);
      assert props == rest + [p];
      PropSegmentsSnoc(rest, PropOffsets(rest, offset), p, Pad(SlotAlign(p), end));
      SlotAlignIsPow2(p);
      OnePacked(SlotAlign(p), end, SlotSize(p));
      PackedAppend(PropSegments(rest, PropOffsets(rest, offset)),
                   [Segment(Pad(SlotAlign(p), end), SlotSize(p), SlotAlign(p))],
                   offset, end, PropsEnd(props, offset));
    }
  }

  lemma SlotAlignIsPow2(p: Prop)
    requires SlotAlign(p) > 0
    ensures IsPow2(SlotAlign(p))
  {
    WordIsPow2();
    AlignmentIsSound(p.dtype, p.size);
  }

  /** The first offset from end on that is a multiple of the word size. */
  predicate NextWord(end: nat, start: nat) {
    end <= start < end + WORD && start % WORD == 0
  }

  lemma PadWord(offset: nat)
    ensures NextWord(offset, Pad(WORD, offset))
  {
    WordIsPow2();
    PadIsNext(WORD, offset);
  }

  /** A part of whole words, which is left out if there are none and skip is set. */
  function WordPart(start: nat, words: nat, skip: bool): seq<Segment> {
    if skip && words == 0 then [] else [Segment(start, words * WORD, WORD)]
  }

  lemma AddWordPart(a: seq<Segment>, end: nat, start: nat, words: nat, skip: bool)
    requires Packed(a, 0, end) && EndOf(a, 0) == end
    requires if skip && words == 0 then start == end else NextWord(end, start)
    ensures Packed(a + WordPart(start, words, skip), 0, start + words * WORD)
    ensures EndOf(a + WordPart(start, words, skip), 0) == start + words * WORD
  {
    if skip && words == 0 {
      assert a + [] == a;
    } else {
      var s := Segment(start, words * WORD, WORD);
      assert [s][1..] == [];
      PackedAppend(a, [s], 0, end, s.End());
    }
  }

  lemma WordsStayAligned(start: nat, n: nat)
    requires start % WORD == 0
    ensures (start + n * WORD) % WORD == 0
  {}

  lemma TwoParts(from: nat, start: nat, n: nat)
    requires from <= start < from + WORD && start % WORD == 0
    ensures Packed([Segment(start, n * WORD, WORD), Segment(start + n * WORD, n * WORD, WORD)], from,
                   start + 2 * n * WORD)
  {
    var s, t := Segment(start, n * WORD, WORD), Segment(start + n * WORD, n * WORD, WORD);
    assert [s, t][1..] == [t] && [t][1..] == [];
    WordsStayAligned(start, n);
    assert Packed([t], s.End(), start + 2 * n * WORD);
  }

  lemma LastPart(a: seq<Segment>, end: nat, start: nat, n: Option<nat>, to: nat)
    requires Packed(a, 0, end) && EndOf(a, 0) == end && NextWord(end, start)
    requires start + (if n.Some? then 2 * n.value * WORD else 0) <= to
    ensures Packed(a + MetaSegments(start, n), 0, to)
  {
    if n.None? {
      assert a + [] == a;
      PackedTo(a, 0, end, to);
    } else {
      var size := start + 2 * n.value * WORD;
      TwoParts(end, start, n.value);
      PackedAppend(a, MetaSegments(start, n), 0, end, size);
      PackedTo(a + MetaSegments(start, n), 0, size, to);
    }
  }

  lemma {:induction false} PackedTo(segments: seq<Segment>, from: nat, to: nat, further: nat)
    requires Packed(segments, from, to) && to <= further
    ensures Packed(segments, from, further)
    decreases |segments|
  {
    if segments != [] { PackedTo(segments[1..], segments[0].End(), to, further); }
  }

  /** For all metadata the parts of an instance are disjoint, in order, aligned, as close as alignment
      allows, and inside the memory that is allocated for the instance. */
  lemma LayoutIsPacked(m: Meta, n: Option<nat>)
    requires Known(m.props)
    ensures Packed(Segments(m, LayoutOf(m), n), 0, InstanceSize(LayoutOf(m), n))
  {
    var l := LayoutOf(m);
    var head := [Segment(0, m.header, WORD)];
    assert head[1..] == [];
    PadWord(m.header);
    AddWordPart(head, m.header, if m.ndimensions > 0 then l.dimoffset else m.header, m.ndimensions, true);
    var dims := WordPart(l.dimoffset, m.ndimensions, true);
    var props := PropSegments(m.props, l.propoffsets);
    PropsPacked(m.props, DimsEnd(m));
    PackedAppend(head + dims, props, 0, DimsEnd(m), PropsEnd(m.props, DimsEnd(m)));
    RestIsPacked(m, n, head + dims + props);
  }

  /** Where the parts after the properties begin. */
  lemma RestOffsets(m: Meta, n: Option<nat>)
    requires Known(m.props)
    ensures var l, end := LayoutOf(m), PropsEnd(m.props, DimsEnd(m));
      && (if m.nrelations == 0 then l.reloffset == end else NextWord(end, l.reloffset))
      && NextWord(l.reloffset + m.nrelations * WORD, l.propdimsoffset)
      && NextWord(l.propdimsoffset + NPropDims(m.props) * WORD, l.propdimindsoffset)
      && l.propdimindsoffset + (if n.Some? then 2 * n.value * WORD else 0) <= InstanceSize(l, n)
  {
    var l, end := LayoutOf(m), PropsEnd(m.props, DimsEnd(m));
    PadWord(end);
    PadWord(l.reloffset + m.nrelations * WORD);
    PadWord(l.propdimsoffset + NPropDims(m.props) * WORD);
    PadWord(l.propdimindsoffset + if n.Some? then 2 * n.value * WORD else 0);
  }

  lemma RestIsPacked(m: Meta, n: Option<nat>, a: seq<Segment>)
    requires Known(m.props)
    requires Packed(a, 0, PropsEnd(m.props, DimsEnd(m))) && EndOf(a, 0) == PropsEnd(m.props, DimsEnd(m))
    ensures var l := LayoutOf(m);
      Packed(a + WordPart(l.reloffset, m.nrelations, true) + WordPart(l.propdimsoffset, NPropDims(m.props), false)
             + MetaSegments(l.propdimindsoffset, n), 0, InstanceSize(l, n))
  {
    var l := LayoutOf(m);
    RestOffsets(m, n);
    PackRest(a, PropsEnd(m.props, DimsEnd(m)), l.reloffset, m.nrelations, l.propdimsoffset, NPropDims(m.props),
             l.propdimindsoffset, n, InstanceSize(l, n));
  }

  lemma PackRest(a: seq<Segment>, end: nat, rels: nat, nrels: nat, dims: nat, ndims: nat, inds: nat, n: Option<nat>,
                 size: nat)
    requires Packed(a, 0, end) && EndOf(a, 0) == end
    requires if nrels == 0 then rels == end else NextWord(end, rels)
    requires NextWord(rels + nrels * WORD, dims) && NextWord(dims + ndims * WORD, inds)
    requires inds + (if n.Some? then 2 * n.value * WORD else 0) <= size
    ensures Packed(a + WordPart(rels, nrels, true) + WordPart(dims, ndims, false) + MetaSegments(inds, n), 0, size)
  {
    AddWordPart(a, end, rels, nrels, true);
    var b := a + WordPart(rels, nrels, true);
    AddWordPart(b, rels + nrels * WORD, dims, ndims, false);
    LastPart(b + WordPart(dims, ndims, false), dims + ndims * WORD, inds, n, size);
  }

  /** The space between the relation values and what follows them is one word for each, so that records of
      the size that is documented for them do not fit. */
  lemma RelationsFitIff(m: Meta)
    requires Known(m.props)
    ensures LayoutOf(m).reloffset + m.nrelations * RELATION_SIZE <= LayoutOf(m).propdimsoffset <==> m.nrelations == 0
  {
    RestOffsets(m, None);
  }

  /** Any two parts of an instance are disjoint, in order, and inside the memory allocated for it. */
  lemma PartsAreDisjoint(m: Meta, n: Option<nat>, i: nat, j: nat)
    requires Known(m.props) && i < j < |Segments(m, LayoutOf(m), n)|
    ensures var parts := Segments(m, LayoutOf(m), n);
      && parts[i].End() <= parts[j].start && parts[j].End() <= InstanceSize(LayoutOf(m), n)
      && parts[i].align > 0 && parts[i].start % parts[i].align == 0
      && parts[j].align > 0 && parts[j].start % parts[j].align == 0
  {
    var parts, size := Segments(m, LayoutOf(m), n), InstanceSize(LayoutOf(m), n);
    LayoutIsPacked(m, n);
    PackedIsDisjoint(parts, 0, size, i, j);
    PackedInside(parts, 0, size, i);
    PackedInside(parts, 0, size, j);
  }

  // ----- Dimensions of the properties -----

  /** The macro DLITE_PROP_DIM(): where dimension k of property i is found. */
  function DimSlot(props: seq<Prop>, i: nat, k: nat): nat
    requires i < |props|
  {
    NPropDims(props[..i]) + k
  }

  lemma {:induction false} NPropDimsGrows(props: seq<Prop>, i: nat, j: nat)
    requires i < j <= |props|
    ensures NPropDims(props[..i]) + props[i].Ndims() <= NPropDims(props[..j])
    decreases j
  {
    assert props[..j][..j - 1] == props[..j - 1];
    if i < j - 1 { NPropDimsGrows(props, i, j - 1); }
  }

  /** Dimensions of properties do not share a slot, and all slots exist. */
  lemma DimSlotsAreDisjoint(props: seq<Prop>, i: nat, k: nat, j: nat, l: nat)
    requires i < |props| && k < props[i].Ndims() && j < |props| && l < props[j].Ndims()
    ensures DimSlot(props, i, k) < NPropDims(props)
    ensures DimSlot(props, i, k) == DimSlot(props, j, l) ==> i == j && k == l
  {
    assert props[..|props|] == props;
    NPropDimsGrows(props, i, |props|);
    if i < j { NPropDimsGrows(props, i, j); }
    if j < i { NPropDimsGrows(props, j, i); }
  }

  // ----- Initialisation -----

  lemma LayoutFromParts(m: Meta, l: Layout)
    requires Known(m.props)
    requires l.dimoffset == if m.ndimensions > 0 then Pad(WORD, m.header) else 0
    requires l.propoffsets == PropOffsets(m.props, DimsEnd(m))
    requires l.reloffset ==
      if m.nrelations > 0 then Pad(WORD, PropsEnd(m.props, DimsEnd(m))) else PropsEnd(m.props, DimsEnd(m))
    requires l.propdimsoffset == Pad(WORD, l.reloffset + m.nrelations * WORD)
    requires l.propdimindsoffset == Pad(WORD, l.propdimsoffset + NPropDims(m.props) * WORD)
    ensures l == LayoutOf(m)
  {}

  /** Default header sizes: sizeof(DLiteInstance) and sizeof(DLiteMeta). */
  const INSTANCE_HEADER: nat := 72
  const META_HEADER: nat := 240

  /** Metadata; the two arrays lie in its own memory. */
  class Metadata {
    const ndimensions: nat
    const props: seq<Prop>
    const nrelations: nat
    const ismeta: bool

    var headersize: nat
    var npropdims: nat
    var dimoffset: nat
    var reloffset: nat
    var propdimsoffset: nat
    var propdimindsoffset: nat
    const propdiminds: array<nat>
    const propoffsets: array<nat>

    ghost predicate Valid()
      reads this
    {
      && propdiminds.Length == |props| && propoffsets.Length == |props| && propdiminds != propoffsets
      && (ndimensions == 0 ==> dimoffset == 0)
    }

    /** What the instances of this metadata are made of. */
    function Described(): Meta
      reads this
    {
      Meta(headersize, ndimensions, props, nrelations)
    }

    constructor (ndimensions: nat, props: seq<Prop>, nrelations: nat, ismeta: bool, headersize: nat)
      ensures Valid() && fresh(propdiminds) && fresh(propoffsets)
      ensures this.ndimensions == ndimensions && this.props == props && this.nrelations == nrelations
      ensures this.ismeta == ismeta && this.headersize == headersize
    {
      this.ndimensions, this.props, this.nrelations, this.ismeta := ndimensions, props, nrelations, ismeta;
      this.headersize := headersize;
      npropdims, dimoffset, reloffset, propdimsoffset, propdimindsoffset := 0, 0, 0, 0, 0;
      propdiminds := new nat[|props|](_ => 0);
      propoffsets := new nat[|props|](_ => 0);
    }

    /** dlite_meta_init(); false stands for the failing assertion on a property of unknown alignment. */
    method Init() returns (ok: bool)
      requires Valid()
      modifies this, propdiminds, propoffsets
      ensures Valid() && ok == Known(props)
      ensures headersize ==
        if old(headersize) > 0 then old(headersize) else if ismeta then META_HEADER else INSTANCE_HEADER
      ensures npropdims == NPropDims(props) && forall i | 0 <= i < |props| :: propdiminds[i] == NPropDims(props[..i])
      ensures ok ==>
        LayoutOf(Described()) == Layout(dimoffset, propoffsets[..], reloffset, propdimsoffset, propdimindsoffset)
    {
      if headersize == 0 { headersize := if ismeta then META_HEADER else INSTANCE_HEADER; }
      IndexDimensions();
      var size := PlaceDimensions();
      var end;
      ok, end := PlaceProperties(size);
      if !ok { return; }
      ghost var m := Described();
      PlaceRest(end);
      assert Described() == m;
      LayoutFromParts(m, Layout(dimoffset, propoffsets[..], reloffset, propdimsoffset, propdimindsoffset));
    }

    /** Offsets of the parts that follow the properties. */
    method PlaceRest(end: nat)
      modifies this`reloffset, this`propdimsoffset, this`propdimindsoffset
      ensures reloffset == if nrelations > 0 then Pad(WORD, end) else end
      ensures propdimsoffset == Pad(WORD, reloffset + nrelations * WORD)
      ensures propdimindsoffset == Pad(WORD, propdimsoffset + npropdims * WORD)
    {
      var size := end;
      if nrelations > 0 { size := Pad(WORD, size); }
      reloffset := size;
      propdimsoffset := Pad(WORD, size + nrelations * WORD);
      propdimindsoffset := Pad(WORD, propdimsoffset + npropdims * WORD);
    }

    /** Index of the first dimension of each property. */
    method IndexDimensions()
      requires Valid()
      modifies this`npropdims, propdiminds
      ensures npropdims == NPropDims(props) && forall i | 0 <= i < |props| :: propdiminds[i] == NPropDims(props[..i])
    {
      var i: nat, j: nat := 0, 0;
      while i < |props|
        invariant i <= |props| && j == NPropDims(props[..i])
        invariant forall k | 0 <= k < i :: propdiminds[k] == NPropDims(props[..k])
      {
        propdiminds[i] := j;
        assert props[..i + 1][..i] == props[..i];
        j := j + props[i].Ndims();
        i := i + 1;
      }
      assert props[..i] == props;
      npropdims := j;
    }

    method PlaceDimensions() returns (size: nat)
      modifies this`dimoffset
      ensures size == DimsEnd(Described())
        && dimoffset == if ndimensions > 0 then Pad(WORD, headersize) else old(dimoffset)
    {
      size := headersize;
      if ndimensions > 0 {
        dimoffset := Pad(WORD, size);
        size := dimoffset + ndimensions * WORD;
      }
    }

    method PlaceProperties(start: nat) returns (ok: bool, size: nat)
      requires Valid()
      modifies propoffsets
      ensures ok == Known(props)
      ensures ok ==> size == PropsEnd(props, start) && propoffsets[..] == PropOffsets(props, start)
    {
      size := start;
      var i: nat := 0;
      while i < |props|
        invariant i <= |props| && Known(props[..i])
        invariant size == PropsEnd(props[..i], start) && propoffsets[..i] == PropOffsets(props[..i], start)
      {
        var p := props[i];
        if SlotAlign(p) == 0 { return false, size; }
        assert props[..i + 1][..i] == props[..i] && props[..i + 1][i] == p;
        propoffsets[i] := Pad(SlotAlign(p), size);
        assert propoffsets[..i + 1] == propoffsets[..i] + [propoffsets[i]];
        size := propoffsets[i] + SlotSize(p);
        i := i + 1;
      }
      assert props[..i] == props && propoffsets[..i] == propoffsets[..];
      return true, size;
    }
  }
}
