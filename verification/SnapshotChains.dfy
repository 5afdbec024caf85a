/** Chains of snapshots linked by hashes (`dlite-entity.c`): what verification establishes. */
module SnapshotChains {
  import opened Options
  import opened Strings

  type Uuid = string
  type Hash = string

  /** An element of a property: the bytes of a number or of a text of fixed size, a string, the instance that is
      referred to, or a relation. */
  datatype Element =
    | Bytes(bytes: string)
    | Text(text: Option<string>)
    | Reference(uuid: Option<Uuid>)
    | Relation(s: Option<string>, p: Option<string>, o: Option<string>, d: Option<string>, id: Option<string>)

  /** The values of an instance: metadata URI, dimensions, and the elements of each property. */
  datatype Data = Data(meta: string, dims: seq<nat>, props: seq<seq<Element>>)

  /** Reference to the parent, as stored in an instance. */
  datatype Ref = Ref(uuid: Uuid, hash: Hash)

  /** What is hashed: the reference to the parent, if any, and the values. */
  datatype Hashed = Hashed(link: Option<Ref>, data: Data)

  type Digest = Hashed -> Hash

  /** The instances that can be retrieved, from memory or from storages. */
  type View = map<Uuid, Hashed>

  ghost predicate Acyclic(view: View, rank: map<Uuid, nat>) {
    && view.Keys <= rank.Keys
    && forall u | u in view && view[u].link.Some? && view[u].link.value.uuid in view ::
      rank[view[u].link.value.uuid] < rank[u]
  }

  /** dlite_instance_verify_hash(): 0 if valid, 1 for a wrong hash and 3 for a missing parent. */
  function Verify(view: View, u: Uuid, hash: Option<Hash>, recursive: bool, digest: Digest,
                  ghost rank: map<Uuid, nat>): int
    requires u in view && Acyclic(view, rank)
    decreases rank[u]
  {
    if hash.Some? && digest(view[u]) != hash.value then 1
    else if view[u].link.None? then 0
    else
      var r := view[u].link.value;
      if r.uuid !in view then 3
      else if recursive || hash.None? then Verify(view, r.uuid, Some(r.hash), recursive, digest, rank)
      else 0
  }

  /** The n-th ancestor, counting the instance itself as number 0. */
  function Ancestor(view: View, u: Uuid, n: nat): (a: Option<Uuid>)
    requires u in view
    ensures a.Some? ==> a.value in view
    decreases n
  {
    if n == 0 then Some(u)
    else if view[u].link.Some? && view[u].link.value.uuid in view then Ancestor(view, view[u].link.value.uuid, n - 1)
    else None
  }

  /** The instance has no parent, or the stored hash is that of its parent. */
  ghost predicate LinkHolds(view: View, u: Uuid, digest: Digest)
    requires u in view
  {
    view[u].link.Some? ==>
      var r := view[u].link.value; r.uuid in view && r.hash == digest(view[r.uuid])
  }

  /** Every link of the chain holds. */
  ghost predicate Intact(view: View, u: Uuid, digest: Digest)
    requires u in view
  {
    forall n: nat | Ancestor(view, u, n).Some? :: LinkHolds(view, Ancestor(view, u, n).value, digest)
  }

  /** The links of the first n ancestors hold, and the next one is broken in the way that the status tells. */
  ghost predicate BrokenAt(view: View, u: Uuid, digest: Digest, n: nat, status: int)
    requires u in view
  {
    && (forall m: nat | m < n :: Ancestor(view, u, m).Some? && LinkHolds(view, Ancestor(view, u, m).value, digest))
    && Ancestor(view, u, n).Some?
    && var x := view[Ancestor(view, u, n).value];
      x.link.Some? && if x.link.value.uuid in view
        then status == 1 && digest(view[x.link.value.uuid]) != x.link.value.hash
        else status == 3
  }

  lemma IntactFromParent(view: View, u: Uuid, digest: Digest)
    requires u in view
    ensures Intact(view, u, digest) <==>
      LinkHolds(view, u, digest) && (view[u].link.Some? ==> Intact(view, view[u].link.value.uuid, digest))
  {
    assert Ancestor(view, u, 0) == Some(u);
    if view[u].link.Some? && view[u].link.value.uuid in view {
      var p := view[u].link.value.uuid;
      assert forall n: nat :: Ancestor(view, p, n) == Ancestor(view, u, n + 1);
      if LinkHolds(view, u, digest) && Intact(view, p, digest) {
        forall n: nat | Ancestor(view, u, n).Some? ensures LinkHolds(view, Ancestor(view, u, n).value, digest) {
          if n > 0 { assert Ancestor(view, u, n) == Ancestor(view, p, n - 1); }
        }
      }
    }
  }

  lemma {:induction false} VerifyLinks(view: View, u: Uuid, hash: Option<Hash>, digest: Digest, rank: map<Uuid, nat>)
    requires u in view && Acyclic(view, rank) && (hash.Some? ==> hash.value == digest(view[u]))
    ensures Verify(view, u, hash, true, digest, rank) == 0 <==> Intact(view, u, digest)
    ensures Verify(view, u, hash, true, digest, rank) != 0 ==>
      exists n: nat :: BrokenAt(view, u, digest, n, Verify(view, u, hash, true, digest, rank))
    decreases rank[u]
  {
    IntactFromParent(view, u, digest);
    var status := Verify(view, u, hash, true, digest, rank);
    if view[u].link.Some? {
      var r := view[u].link.value;
      if r.uuid in view && r.hash == digest(view[r.uuid]) {
        VerifyLinks(view, r.uuid, Some(r.hash), digest, rank);
        if status != 0 {
          var n: nat :| BrokenAt(view, r.uuid, digest, n, status);
          assert forall m: nat :: Ancestor(view, r.uuid, m) == Ancestor(view, u, m + 1);
          forall m: nat | m < n + 1
            ensures Ancestor(view, u, m).Some? && LinkHolds(view, Ancestor(view, u, m).value, digest)
          {
            if m > 0 { assert Ancestor(view, u, m) == Ancestor(view, r.uuid, m - 1); }
          }
          assert BrokenAt(view, u, digest, n + 1, status);
        }
      } else {
        assert r.uuid in view ==> Verify(view, r.uuid, Some(r.hash), true, digest, rank) == 1;
        assert BrokenAt(view, u, digest, 0, status);
      }
    }
  }

  /** Verifying a transaction succeeds exactly when every stored hash matches the ancestor that it refers to;
      otherwise the status is that of the link closest to the instance that is broken. */
  lemma VerifyTransactionIff(view: View, u: Uuid, digest: Digest, rank: map<Uuid, nat>)
    requires u in view && Acyclic(view, rank)
    ensures Verify(view, u, None, true, digest, rank) == 0 <==> Intact(view, u, digest)
    ensures Verify(view, u, None, true, digest, rank) != 0 ==>
      exists n: nat :: BrokenAt(view, u, digest, n, Verify(view, u, None, true, digest, rank))
    ensures Verify(view, u, None, false, digest, rank) == 0 <==>
      LinkHolds(view, u, digest) && (view[u].link.Some? && view[view[u].link.value.uuid].link.Some? ==>
        view[view[u].link.value.uuid].link.value.uuid in view)
  {
    VerifyLinks(view, u, None, digest, rank);
  }

  // ----- Tamper evidence -----

  /** No two different instances of the two views have the same digest. */
  ghost predicate NoCollisions(v: View, w: View, digest: Digest) {
    forall p, q | p in v && q in w && digest(v[p]) == digest(w[q]) :: v[p] == w[q]
  }

  /** Two chains that verify and whose heads store the same parent hash have the same ancestors, in content
      and number. */
  lemma {:induction false} TamperEvident(v: View, u: Uuid, w: View, x: Uuid, digest: Digest, n: nat)
    requires u in v && x in w && Intact(v, u, digest) && Intact(w, x, digest) && NoCollisions(v, w, digest)
    requires v[u].link.Some? && w[x].link.Some? && v[u].link.value.hash == w[x].link.value.hash && n > 0
    ensures Ancestor(v, u, n).Some? == Ancestor(w, x, n).Some?
    ensures Ancestor(v, u, n).Some? ==> v[Ancestor(v, u, n).value] == w[Ancestor(w, x, n).value]
    decreases n
  {
    IntactFromParent(v, u, digest);
    IntactFromParent(w, x, digest);
    var p, q := v[u].link.value.uuid, w[x].link.value.uuid;
    assert v[p] == w[q];
    if n > 1 {
      IntactFromParent(v, p, digest);
      IntactFromParent(w, q, digest);
      if v[p].link.Some? { TamperEvident(v, p, w, q, digest, n - 1); }
    }
  }

  // ----- The text that is hashed -----

  /** Concatenation of the encoded dimensions. */
  function EncodeAll(dims: seq<nat>, encode: nat -> string): string {
    if dims == [] then "" else encode(dims[0]) + EncodeAll(dims[1..], encode)
  }

  function OrNothing(s: Option<string>): string {
    if s.Some? then s.value else ""
  }

  /** dlite_type_update_sha3(): the datatype and the id of a relation are not hashed. */
  function ElementText(e: Element): string {
    match e
    case Bytes(bytes) => bytes
    case Text(text) => OrNothing(text)
    case Reference(uuid) => OrNothing(uuid)
    case Relation(s, p, o, _, _) => OrNothing(s) + (OrNothing(p) + OrNothing(o))
  }

  function Texts(elements: seq<Element>): (texts: seq<string>)
    ensures |texts| == |elements| && forall i | 0 <= i < |texts| :: texts[i] == ElementText(elements[i])
  {
    seq(|elements|, i requires 0 <= i < |elements| => ElementText(elements[i]))
  }

  /** The texts of all elements of all properties, one after the other. */
  function PropsText(props: seq<seq<Element>>): string {
    Concat(Texts(Concat(props)))
  }

  /** The bytes fed to the hash function; nothing separates the parts. */
  function Stream(x: Hashed, encode: nat -> string): string {
    (if x.link.Some? then x.link.value.uuid + x.link.value.hash else "")
    + (x.data.meta + (EncodeAll(x.data.dims, encode) + PropsText(x.data.props)))
  }

  const DIM_LIMIT: nat := 0x1_0000_0000_0000_0000

  /** Dimensions, which are 64 bits wide, are encoded injectively in a fixed number of bytes. */
  ghost predicate FixedWidth(encode: nat -> string, width: nat) {
    && (forall n: nat :: |encode(n)| == width)
    && forall m: nat, n: nat | m < DIM_LIMIT && n < DIM_LIMIT && encode(m) == encode(n) :: m == n
  }

  ghost predicate InLimit(dims: seq<nat>) {
    forall i | 0 <= i < |dims| :: dims[i] < DIM_LIMIT
  }

  lemma {:induction false} DimsFromStream(a: seq<nat>, b: seq<nat>, x: string, y: string, encode: nat -> string,
                                          width: nat)
    requires FixedWidth(encode, width) && |a| == |b| && InLimit(a) && InLimit(b)
    requires EncodeAll(a, encode) + x == EncodeAll(b, encode) + y
    ensures a == b && x == y
    decreases |a|
  {
    if a == [] {
      assert EncodeAll(a, encode) + x == x && EncodeAll(b, encode) + y == y;
    } else {
      var ra, rb := EncodeAll(a[1..], encode), EncodeAll(b[1..], encode);
      assert encode(a[0]) + (ra + x) == EncodeAll(a, encode) + x;
      assert encode(b[0]) + (rb + y) == EncodeAll(b, encode) + y;
      SplitSame(encode(a[0]), encode(b[0]), ra + x, rb + y);
      DimsFromStream(a[1..], b[1..], x, y, encode, width);
      assert a == [a[0]] + a[1..] && b == [b[0]] + b[1..];
    }
  }

  predicate SameLength(s: Option<string>, t: Option<string>) {
    s.Some? == t.Some? && (s.Some? ==> |s.value| == |t.value|)
  }

  /** Both elements have the same structure: what is present, of what size, and what is not hashed. */
  predicate Similar(e: Element, f: Element) {
    match (e, f)
    case (Bytes(b), Bytes(c)) => |b| == |c|
    case (Text(t), Text(u)) => SameLength(t, u)
    case (Reference(t), Reference(u)) => SameLength(t, u)
    case (Relation(s, p, o, d, id), Relation(s', p', o', d', id')) =>
      SameLength(s, s') && SameLength(p, p') && SameLength(o, o') && d == d' && id == id'
    case _ => false
  }

  lemma SimilarSameText(e: Element, f: Element)
    requires Similar(e, f)
    ensures |ElementText(e)| == |ElementText(f)|
    ensures ElementText(e) == ElementText(f) ==> e == f
  {
    if ElementText(e) == ElementText(f) && e.Relation? {
      SplitSame(OrNothing(e.s), OrNothing(f.s), OrNothing(e.p) + OrNothing(e.o), OrNothing(f.p) + OrNothing(f.o));
      SplitSame(OrNothing(e.p), OrNothing(f.p), OrNothing(e.o), OrNothing(f.o));
    }
  }

  ghost predicate SameNumbers(a: Data, b: Data) {
    |a.props| == |b.props| && forall i | 0 <= i < |a.props| :: |a.props[i]| == |b.props[i]|
  }

  /** If the dimensions are the same, so are the numbers of elements and the structure of all elements. */
  ghost predicate SizesFollow(a: Data, b: Data) {
    a.dims == b.dims ==>
      && SameNumbers(a, b) && |Concat(a.props)| == |Concat(b.props)|
      && forall k | 0 <= k < |Concat(a.props)| :: Similar(Concat(a.props)[k], Concat(b.props)[k])
  }

  /** Both without a parent or with references of the same sizes. */
  ghost predicate SameLinks(a: Hashed, b: Hashed) {
    && a.link.Some? == b.link.Some?
    && (a.link.Some? ==>
          |a.link.value.uuid| == |b.link.value.uuid| && |a.link.value.hash| == |b.link.value.hash|)
  }

  /** Also URIs of the same length and the same number of dimensions. */
  ghost predicate SameHead(a: Hashed, b: Hashed) {
    && SameLinks(a, b) && |a.data.meta| == |b.data.meta|
    && |a.data.dims| == |b.data.dims| && InLimit(a.data.dims) && InLimit(b.data.dims)
  }

  ghost predicate SameShape(a: Hashed, b: Hashed) {
    SameHead(a, b) && SizesFollow(a.data, b.data)
  }

  /** Two instances with the same stream are the same exactly if their parts have the same sizes. */
  lemma StreamDeterminesContent(a: Hashed, b: Hashed, encode: nat -> string, width: nat)
    requires FixedWidth(encode, width) && InLimit(a.data.dims) && InLimit(b.data.dims)
      && Stream(a, encode) == Stream(b, encode)
    ensures a == b <==> SameShape(a, b)
  {
    if SameShape(a, b) { StreamOfShape(a, b, encode, width); }
  }

  lemma StreamOfShape(a: Hashed, b: Hashed, encode: nat -> string, width: nat)
    requires FixedWidth(encode, width) && SameShape(a, b) && Stream(a, encode) == Stream(b, encode)
    ensures a == b
  {
    StreamParts(a, b, encode, width);
    var es, fs := Concat(a.data.props), Concat(b.data.props);
    forall k | 0 <= k < |es| ensures |Texts(es)[k]| == |Texts(fs)[k]| { SimilarSameText(es[k], fs[k]); }
    PartsAreSame(Texts(es), Texts(fs));
    ElementsAreSame(es, fs);
    PartsAreSame(a.data.props, b.data.props);
  }

  lemma ElementsAreSame(es: seq<Element>, fs: seq<Element>)
    requires |es| == |fs| && Texts(es) == Texts(fs) && forall k | 0 <= k < |es| :: Similar(es[k], fs[k])
    ensures es == fs
  {
    forall k | 0 <= k < |es| ensures es[k] == fs[k] {
      assert Texts(es)[k] == Texts(fs)[k];
      SimilarSameText(es[k], fs[k]);
    }
  }

  /** What comes after the reference to the parent. */
  function Body(x: Hashed, encode: nat -> string): string {
    EncodeAll(x.data.dims, encode) + PropsText(x.data.props)
  }

  /** Instances with the same stream, of whatever metadata, have the same parent, and the same metadata exactly if
      the URIs of these have the same length. */
  lemma StreamTellsMetadata(a: Hashed, b: Hashed, encode: nat -> string)
    requires SameLinks(a, b) && Stream(a, encode) == Stream(b, encode)
    ensures a.link == b.link
    ensures a.data.meta == b.data.meta <==> |a.data.meta| == |b.data.meta|
    ensures a.data.meta == b.data.meta ==> Body(a, encode) == Body(b, encode)
  {
    var x, y := a.data.meta + Body(a, encode), b.data.meta + Body(b, encode);
    if a.link.Some? {
      var l, m := a.link.value, b.link.value;
      SplitSame(l.uuid + l.hash, m.uuid + m.hash, x, y);
      SplitSame(l.uuid, m.uuid, l.hash, m.hash);
    } else {
      SplitSame("", "", x, y);
    }
    if |a.data.meta| == |b.data.meta| { SplitSame(a.data.meta, b.data.meta, Body(a, encode), Body(b, encode)); }
  }

  /** What the stream determines in any case. */
  lemma StreamParts(a: Hashed, b: Hashed, encode: nat -> string, width: nat)
    requires FixedWidth(encode, width) && SameHead(a, b) && Stream(a, encode) == Stream(b, encode)
    ensures a.link == b.link && a.data.meta == b.data.meta && a.data.dims == b.data.dims
    ensures PropsText(a.data.props) == PropsText(b.data.props)
  {
    StreamTellsMetadata(a, b, encode);
    DimsFromStream(a.data.dims, b.data.dims, PropsText(a.data.props), PropsText(b.data.props), encode, width);
  }

  lemma OnePart<T>(a: seq<T>)
    ensures Concat([a]) == a
  {
    assert [a][1..] == [];
  }

  lemma TwoParts<T>(a: seq<T>, b: seq<T>)
    ensures Concat([a, b]) == a + b
  {
    OnePart(b);
    assert [a, b][1..] == [b];
  }

  lemma TwoTexts(s: string, t: string)
    ensures Concat(Texts([Str(s), Str(t)])) == s + t
  {
    assert Texts([Str(s), Str(t)]) == [s, t];
    TwoParts(s, t);
  }

  /** Two instances of the same metadata with these elements differ, and have the same stream. */
  ghost predicate Collide(meta: string, dims: seq<nat>, props: seq<seq<Element>>, others: seq<seq<Element>>,
                          encode: nat -> string)
  {
    var a, b := Hashed(None, Data(meta, dims, props)), Hashed(None, Data(meta, dims, others));
    a != b && SameNumbers(a.data, b.data) && Stream(a, encode) == Stream(b, encode)
  }

  function Str(s: string): Element {
    Text(Some(s))
  }

  /** A character can move between two strings. */
  lemma StringsExample(meta: string, encode: nat -> string)
    ensures Collide(meta, [], [[Str("ab")], [Str("c")]], [[Str("a")], [Str("bc")]], encode)
  {
    var p, q := [[Str("ab")], [Str("c")]], [[Str("a")], [Str("bc")]];
    TwoParts([Str("ab")], [Str("c")]);
    TwoParts([Str("a")], [Str("bc")]);
    TwoTexts("ab", "c");
    TwoTexts("a", "bc");
    assert "ab" != "a" && p[0][0] == Str("ab") && q[0][0] == Str("a");
  }

  /** The same for an array of strings. */
  lemma ArrayExample(meta: string, encode: nat -> string)
    ensures Collide(meta, [2], [[Str("ab"), Str("c")]], [[Str("a"), Str("bc")]], encode)
  {
    var p, q := [[Str("ab"), Str("c")]], [[Str("a"), Str("bc")]];
    OnePart(p[0]);
    OnePart(q[0]);
    TwoTexts("ab", "c");
    TwoTexts("a", "bc");
    assert "ab" != "a" && p[0][0] == Str("ab") && q[0][0] == Str("a");
  }

  /** A single string collides if it is null or empty. */
  lemma NullExample(meta: string, encode: nat -> string)
    ensures Collide(meta, [], [[Text(None)]], [[Str("")]], encode)
  {
    OnePart([Text(None)]);
    OnePart([Str("")]);
    assert Texts([Text(None)]) == Texts([Str("")]);
    assert [[Text(None)]][0][0] != [[Str("")]][0][0];
  }

  /** A single relation collides, since its datatype is not hashed. */
  lemma RelationExample(meta: string, r: Element, d: string, encode: nat -> string)
    requires r.Relation? && r.d.None?
    ensures Collide(meta, [], [[r]], [[r.(d := Some(d))]], encode)
  {
    var t := r.(d := Some(d));
    OnePart([r]);
    OnePart([t]);
    assert Texts([r]) == Texts([t]);
    assert [[r]][0][0] != [[t]][0][0];
  }

  /** With URIs of different lengths a character can move between the URI and a string. */
  lemma MetadataExample(meta: string, encode: nat -> string)
    ensures var a, b := Hashed(None, Data(meta, [], [[Str("xy")]])), Hashed(None, Data(meta + "x", [], [[Str("y")]]));
      a.data.meta != b.data.meta && Stream(a, encode) == Stream(b, encode)
  {
    OnePart([Str("xy")]);
    OnePart([Str("y")]);
    assert Texts([Str("xy")]) == ["xy"] && Texts([Str("y")]) == ["y"];
    OnePart("xy");
    OnePart("y");
    assert |meta + "x"| > |meta|;
    assert meta + ("" + "xy") == meta + "x" + ("" + "y");
  }
}
