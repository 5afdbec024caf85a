/** What the text that is hashed for a collection consists of, and what it tells about the relations
    (`dlite-collection.c`). */
module CollectionTexts {
  import opened Options
  import opened Strings
  import opened Triples
  import opened CollectionHash

  /** The fields of a relation; a missing datatype adds nothing. */
  function Fields(t: Triple): seq<string> {
    [t.s, t.p, t.o, if t.d.Some? then t.d.value else ""]
  }

  function AllFields(ts: seq<Triple>): seq<string> {
    if ts == [] then [] else AllFields(ts[..|ts| - 1]) + Fields(ts[|ts| - 1])
  }

  /** The relation that tells the hash of an instance: the one that is stored first for its label, or a new one. */
  function HashRelation(ts: seq<Triple>, t: Triple, hash: InstanceHash): Option<Triple> {
    var stored := FirstHash(ts, t.s);
    if stored.Some? then stored
    else if hash(t.o).Some? then Some(Triple(t.s, "_has-hash", hash(t.o).value, None))
    else None
  }

  /** The relations that are hashed for one of the sorted relations. */
  function Expanded(ts: seq<Triple>, t: Triple, hash: InstanceHash): Option<seq<Triple>> {
    if t.p == "_has-hash" then Some([])
    else if t.p != "_has-uuid" then Some([t])
    else
      var h := HashRelation(ts, t, hash);
      if h.Some? then Some([h.value, t]) else None
  }

  function Expansion(ts: seq<Triple>, sorted: seq<Triple>, hash: InstanceHash): Option<seq<Triple>> {
    if sorted == [] then Some([])
    else
      var last := |sorted| - 1;
      var a, b := Expansion(ts, sorted[..last], hash), Expanded(ts, sorted[last], hash);
      if a.Some? && b.Some? then Some(a.value + b.value) else None
  }

  lemma {:induction false} AllFieldsOfMore(a: seq<Triple>, b: seq<Triple>)
    ensures AllFields(a + b) == AllFields(a) + AllFields(b)
    decreases |b|
  {
    if b == [] {
      assert a + b == a;
    } else {
      AllFieldsOfMore(a, b[..|b| - 1]);
      assert (a + b)[..|a + b| - 1] == a + b[..|b| - 1];
    }
  }

  lemma {:induction false} ConcatOfMore(a: seq<string>, b: seq<string>)
    ensures Concat(a + b) == Concat(a) + Concat(b)
    decreases |a|
  {
    if a == [] {
      assert a + b == b;
    } else {
      ConcatOfMore(a[1..], b);
      assert (a + b)[1..] == a[1..] + b;
    }
  }

  lemma FourParts(a: string, b: string, c: string, d: string)
    ensures Concat([a, b, c, d]) == a + b + c + d
  {
    var v, w, x := [b, c, d], [c, d], [d];
    assert [a, b, c, d][1..] == v && v[1..] == w && w[1..] == x && x[1..] == [];
    assert Concat(x) == d && Concat(w) == c + d && Concat(v) == b + (c + d);
    assert a + (b + (c + d)) == a + b + c + d;
  }

  lemma FieldsText(t: Triple)
    ensures Concat(Fields(t)) == IdText(t)
  {
    FourParts(t.s, t.p, t.o, if t.d.Some? then t.d.value else "");
  }

  lemma OneText(t: Triple)
    ensures Concat(AllFields([t])) == IdText(t)
  {
    FieldsText(t);
    assert [t][..0] == [] && AllFields([t]) == Fields(t);
  }

  lemma TwoTexts(t: Triple, u: Triple)
    ensures Concat(AllFields([t, u])) == IdText(t) + IdText(u)
  {
    OneText(t);
    FieldsText(u);
    assert [t, u][..1] == [t];
    ConcatOfMore(AllFields([t]), Fields(u));
  }

  lemma PartIsExpanded(ts: seq<Triple>, t: Triple, hash: InstanceHash)
    ensures var e := Expanded(ts, t, hash);
      Part(ts, t, hash) == if e.Some? then Some(Concat(AllFields(e.value))) else None
  {
    OneText(t);
    UuidIsNotHash();
    if t.p == HAS_UUID {
      var h := HashRelation(ts, t, hash);
      if h.Some? {
        TwoTexts(h.value, t);
        assert h.value.s + h.value.p + h.value.o + "" == h.value.s + h.value.p + h.value.o;
      }
    }
  }

  /** The text is that of all fields of these relations, one after the other. */
  lemma {:induction false} TextIsConcatenation(ts: seq<Triple>, sorted: seq<Triple>, hash: InstanceHash)
    ensures var e := Expansion(ts, sorted, hash);
      TextOf(ts, sorted, hash) == if e.Some? then Some(Concat(AllFields(e.value))) else None
    decreases |sorted|
  {
    if sorted != [] {
      var last := |sorted| - 1;
      TextIsConcatenation(ts, sorted[..last], hash);
      PartIsExpanded(ts, sorted[last], hash);
      var a, b := Expansion(ts, sorted[..last], hash), Expanded(ts, sorted[last], hash);
      if a.Some? && b.Some? {
        AllFieldsOfMore(a.value, b.value);
        ConcatOfMore(AllFields(a.value), AllFields(b.value));
      }
    }
  }

  /** The relations that do not tell a hash. */
  function Proper(ts: seq<Triple>): seq<Triple> {
    if ts == [] then []
    else
      var t := ts[|ts| - 1];
      Proper(ts[..|ts| - 1]) + if t.p == "_has-hash" then [] else [t]
  }

  lemma {:induction false} ProperOfMore(a: seq<Triple>, b: seq<Triple>)
    ensures Proper(a + b) == Proper(a) + Proper(b)
    decreases |b|
  {
    if b == [] {
      assert a + b == a;
    } else {
      ProperOfMore(a, b[..|b| - 1]);
      assert (a + b)[..|a + b| - 1] == a + b[..|b| - 1];
    }
  }

  lemma ProperOfOne(t: Triple)
    ensures Proper([t]) == if t.p == "_has-hash" then [] else [t]
  {
    assert [t][..0] == [];
  }

  lemma ProperOfExpanded(ts: seq<Triple>, t: Triple, hash: InstanceHash)
    requires Expanded(ts, t, hash).Some?
    ensures Proper(Expanded(ts, t, hash).value) == if t.p == "_has-hash" then [] else [t]
  {
    ProperOfOne(t);
    if t.p == "_has-uuid" {
      UuidIsNotHash();
      FirstHashIsStored(ts, t.s);
      ProperOfPair(HashRelation(ts, t, hash).value, t);
    }
  }

  lemma UuidIsNotHash()
    ensures "_has-uuid" != "_has-hash"
  {
    assert "_has-uuid"[5] == 'u' && "_has-hash"[5] == 'h';
  }

  lemma ProperOfPair(h: Triple, t: Triple)
    requires h.p == "_has-hash" && t.p != "_has-hash"
    ensures Proper([h, t]) == [t]
  {
    ProperOfOne(h);
    assert [h, t][..1] == [h];
  }

  /** All sorted relations are hashed, in their order, but those that tell a hash. */
  lemma {:induction false} ExpansionHasRelations(ts: seq<Triple>, sorted: seq<Triple>, hash: InstanceHash)
    requires Expansion(ts, sorted, hash).Some?
    ensures Proper(Expansion(ts, sorted, hash).value) == Proper(sorted)
    decreases |sorted|
  {
    if sorted != [] {
      var last := |sorted| - 1;
      ExpansionHasRelations(ts, sorted[..last], hash);
      ProperOfExpanded(ts, sorted[last], hash);
      ProperOfMore(Expansion(ts, sorted[..last], hash).value, Expanded(ts, sorted[last], hash).value);
    }
  }

  /** A relation that tells the hash of each instance stands right before the relation to it. */
  lemma {:induction false} HashesGoBefore(ts: seq<Triple>, sorted: seq<Triple>, hash: InstanceHash, i: nat)
    requires Expansion(ts, sorted, hash).Some? && i < |Expansion(ts, sorted, hash).value|
    requires Expansion(ts, sorted, hash).value[i].p == "_has-uuid"
    ensures i > 0 && var e := Expansion(ts, sorted, hash).value;
      && e[i - 1].s == e[i].s && e[i - 1].p == "_has-hash"
      && if e[i - 1] in ts then Some(e[i - 1]) == FirstHash(ts, e[i].s) || Some(e[i - 1].o) == hash(e[i].o)
         else e[i - 1].d.None? && Some(e[i - 1].o) == hash(e[i].o)
    decreases |sorted|
  {
    var last := |sorted| - 1;
    var a, b := Expansion(ts, sorted[..last], hash).value, Expanded(ts, sorted[last], hash).value;
    assert "_has-uuid"[5] == 'u' && "_has-hash"[5] == 'h';
    if i < |a| {
      assert (a + b)[i] == a[i];
      HashesGoBefore(ts, sorted[..last], hash, i);
      assert (a + b)[i - 1] == a[i - 1];
    } else {
      assert (a + b)[i] == b[i - |a|];
      FirstHashIsStored(ts, sorted[last].s);
      assert sorted[last].p == "_has-uuid" && i == |a| + 1;
      assert (a + b)[i - 1] == b[0];
    }
  }

  // ----- What the text tells -----

  /** Both lists have as many relations, with fields of the same lengths. */
  ghost predicate SameSizes(a: seq<Triple>, b: seq<Triple>) {
    |a| == |b| && forall i | 0 <= i < |a| :: SameLengths(a[i], b[i]) && |IdText(a[i])| == |IdText(b[i])|
  }

  lemma {:induction false} SizesGiveLength(a: seq<Triple>, b: seq<Triple>)
    requires SameSizes(a, b)
    ensures |Concat(AllFields(a))| == |Concat(AllFields(b))|
    decreases |a|
  {
    if a != [] {
      SplitLast(a);
      SplitLast(b);
      SizesGiveLength(a[..|a| - 1], b[..|a| - 1]);
    }
  }

  lemma {:induction false} SameFieldsSameRelations(a: seq<Triple>, b: seq<Triple>)
    requires SameSizes(a, b) && Concat(AllFields(a)) == Concat(AllFields(b))
    ensures a == b
    decreases |a|
  {
    if a != [] {
      var n := |a| - 1;
      SplitLast(a);
      SplitLast(b);
      var x, y := Concat(AllFields(a[..n])), Concat(AllFields(b[..n]));
      SizesGiveLength(a[..n], b[..n]);
      SplitSame(x, y, IdText(a[n]), IdText(b[n]));
      SameFieldsSameRelations(a[..n], b[..n]);
      TextAndLengths(a[n], b[n]);
      assert a == a[..n] + [a[n]] && b == b[..n] + [b[n]];
    }
  }

  lemma SplitLast(a: seq<Triple>)
    requires a != []
    ensures Concat(AllFields(a)) == Concat(AllFields(a[..|a| - 1])) + IdText(a[|a| - 1])
  {
    var n := |a| - 1;
    ConcatOfMore(AllFields(a[..n]), Fields(a[n]));
    FieldsText(a[n]);
  }

  /** Collections with the same text have the same relations, apart from those that tell a hash, if what is hashed
      for them has the same sizes. */
  lemma TextTellsRelations(ts: seq<Triple>, us: seq<Triple>, hash: InstanceHash)
    requires HashText(ts, hash).Some? && HashText(ts, hash) == HashText(us, hash)
    ensures var a, b := Expansion(ts, Sort(ts), hash), Expansion(us, Sort(us), hash);
      && a.Some? && b.Some? && (a == b <==> SameSizes(a.value, b.value))
      && (a == b ==> Proper(Sort(ts)) == Proper(Sort(us)))
  {
    TextIsConcatenation(ts, Sort(ts), hash);
    TextIsConcatenation(us, Sort(us), hash);
    var a, b := Expansion(ts, Sort(ts), hash).value, Expansion(us, Sort(us), hash).value;
    if SameSizes(a, b) { SameFieldsSameRelations(a, b); }
    ExpansionHasRelations(ts, Sort(ts), hash);
    ExpansionHasRelations(us, Sort(us), hash);
  }

  /** Nothing about instances. */
  ghost predicate IsPlain(ts: seq<Triple>) {
    forall t | t in ts :: t.p != "_has-hash" && t.p != "_has-uuid"
  }

  lemma {:induction false} PlainExpansion(ts: seq<Triple>, sorted: seq<Triple>, hash: InstanceHash)
    requires IsPlain(sorted)
    ensures Expansion(ts, sorted, hash) == Some(sorted)
    decreases |sorted|
  {
    if sorted != [] {
      PlainExpansion(ts, sorted[..|sorted| - 1], hash);
      assert sorted == sorted[..|sorted| - 1] + [sorted[|sorted| - 1]];
    }
  }

  /** Without instances the text is that of all fields of the sorted relations; equal texts mean equal relations
      exactly if these have the same sizes. */
  lemma PlainTextTells(ts: seq<Triple>, us: seq<Triple>, hash: InstanceHash)
    requires IsPlain(ts) && IsPlain(us)
    ensures HashText(ts, hash) == Some(Concat(AllFields(Sort(ts))))
    ensures HashText(ts, hash) == HashText(us, hash) ==>
      (multiset(ts) == multiset(us) <==> SameSizes(Sort(ts), Sort(us)))
  {
    SortSorts(ts);
    SortSorts(us);
    SortedIsPlain(ts);
    SortedIsPlain(us);
    PlainExpansion(ts, Sort(ts), hash);
    PlainExpansion(us, Sort(us), hash);
    TextIsConcatenation(ts, Sort(ts), hash);
    if HashText(ts, hash) == HashText(us, hash) { TextTellsRelations(ts, us, hash); }
    if multiset(ts) == multiset(us) { SortedIsUnique(Sort(ts), Sort(us)); }
  }

  lemma SortedIsPlain(ts: seq<Triple>)
    requires IsPlain(ts)
    ensures IsPlain(Sort(ts))
  {
    SortSorts(ts);
    forall t | t in Sort(ts) ensures t in ts {
      assert t in multiset(Sort(ts)) && t in multiset(ts);
    }
  }
}
