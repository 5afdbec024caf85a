/** What the text that is hashed for an instance tells about it, and what chains of such hashes show
    (`dlite-entity.c`). */
module HashedTexts {
  import opened Options
  import opened Strings
  import opened SnapshotChains

  // ----- Metadata and their instances -----

  /** Types of elements: of a fixed number of bytes, strings, references to instances, and relations. */
  datatype Kind = Fixed(size: nat) | String | Referring | Relational

  /** A property: the type of its elements, and their number in terms of the dimensions. */
  datatype Member = Member(kind: Kind, count: seq<nat> -> nat)

  datatype Metadata = Metadata(uri: string, ndims: nat, members: seq<Member>)

  const UUID_LENGTH: nat := 36
  const HASH_SIZE: nat := 32

  /** An element of the given type; null pointers may be excluded. */
  predicate Fits(e: Element, kind: Kind, nulls: bool) {
    match kind
    case Fixed(size) => e.Bytes? && |e.bytes| == size
    case String => e.Text? && (nulls || e.text.Some?)
    case Referring => e.Reference? && (nulls || e.uuid.Some?) && (e.uuid.Some? ==> |e.uuid.value| == UUID_LENGTH)
    case Relational => e.Relation? && (nulls || (e.s.Some? && e.p.Some? && e.o.Some?))
  }

  /** The properties have the right numbers of fitting elements. */
  ghost predicate HasMembers(props: seq<seq<Element>>, ms: seq<Member>, dims: seq<nat>, nulls: bool) {
    && |props| == |ms|
    && forall i | 0 <= i < |ms| ::
      |props[i]| == ms[i].count(dims) && forall k | 0 <= k < |props[i]| :: Fits(props[i][k], ms[i].kind, nulls)
  }

  ghost predicate IsInstance(x: Hashed, m: Metadata, nulls: bool) {
    && x.data.meta == m.uri && |x.data.dims| == m.ndims && InLimit(x.data.dims)
    && HasMembers(x.data.props, m.members, x.data.dims, nulls)
    && (x.link.Some? ==> |x.link.value.uuid| == UUID_LENGTH && |x.link.value.hash| == HASH_SIZE)
  }

  // ----- What texts tell about elements -----

  /** The texts of a rigid element type tell the element and all have the same length; those of a loose one tell
      the element; those of a blurred one do not. */
  datatype Clarity = Rigid | Loose | Blurred

  function ClarityOf(kind: Kind, nulls: bool): Clarity {
    match kind
    case Fixed(_) => Rigid
    case String => if nulls then Blurred else Loose
    case Referring => if nulls then Loose else Rigid
    case Relational => Blurred
  }

  lemma RigidOrLoose(e: Element, f: Element, kind: Kind, nulls: bool)
    requires Fits(e, kind, nulls) && Fits(f, kind, nulls)
    ensures ClarityOf(kind, nulls).Rigid? ==> |ElementText(e)| == |ElementText(f)|
    ensures !ClarityOf(kind, nulls).Blurred? && ElementText(e) == ElementText(f) ==> e == f
  {}

  function Xs(n: nat): string {
    seq(n, _ => 'x')
  }

  /** Some element. */
  function Plain(kind: Kind): Element {
    match kind
    case Fixed(size) => Bytes(Xs(size))
    case String => Str("")
    case Referring => Reference(Some(Xs(UUID_LENGTH)))
    case Relational => Relation(Some(""), Some(""), Some(""), None, None)
  }

  /** A different element, with the same text if the type is blurred. */
  function Other(kind: Kind, nulls: bool): Element {
    match kind
    case Fixed(size) => Bytes(Xs(size))
    case String => if nulls then Text(None) else Str("x")
    case Referring => if nulls then Reference(None) else Reference(Some(Xs(UUID_LENGTH)))
    case Relational => Relation(Some(""), Some(""), Some(""), Some(""), None)
  }

  lemma PlainAndOther(kind: Kind, nulls: bool)
    ensures Fits(Plain(kind), kind, nulls) && Fits(Other(kind, nulls), kind, nulls)
    ensures IsXs(ElementText(Plain(kind))) && IsXs(ElementText(Other(kind, nulls)))
    ensures !ClarityOf(kind, nulls).Rigid? ==> Plain(kind) != Other(kind, nulls)
    ensures ClarityOf(kind, nulls).Blurred? ==> ElementText(Plain(kind)) == ElementText(Other(kind, nulls))
  {
    if kind.Referring? && nulls { assert |Xs(UUID_LENGTH)| > 0; }
  }

  ghost predicate IsXs(s: string) {
    s == Xs(|s|)
  }

  // ----- Element types of an instance -----

  /** The types of all elements, in the order of their texts. */
  function Kinds(ms: seq<Member>, dims: seq<nat>): seq<Kind> {
    if ms == [] then [] else seq(ms[0].count(dims), _ => ms[0].kind) + Kinds(ms[1..], dims)
  }

  /** How many elements are of that clarity. */
  function Number(ms: seq<Member>, dims: seq<nat>, nulls: bool, c: Clarity): nat {
    if ms == [] then 0
    else (if ClarityOf(ms[0].kind, nulls) == c then ms[0].count(dims) else 0) + Number(ms[1..], dims, nulls, c)
  }

  function NumberOf(kinds: seq<Kind>, nulls: bool, c: Clarity): nat {
    if kinds == [] then 0 else (if ClarityOf(kinds[0], nulls) == c then 1 else 0) + NumberOf(kinds[1..], nulls, c)
  }

  lemma {:induction false} NumberOfMore(a: seq<Kind>, b: seq<Kind>, nulls: bool, c: Clarity)
    ensures NumberOf(a + b, nulls, c) == NumberOf(a, nulls, c) + NumberOf(b, nulls, c)
    decreases |a|
  {
    if a == [] {
      assert a + b == b;
    } else {
      NumberOfMore(a[1..], b, nulls, c);
      assert (a + b)[1..] == a[1..] + b;
    }
  }

  lemma {:induction false} NumberOfSame(kind: Kind, n: nat, nulls: bool, c: Clarity)
    ensures NumberOf(seq(n, _ => kind), nulls, c) == if ClarityOf(kind, nulls) == c then n else 0
  {
    if n > 0 {
      NumberOfSame(kind, n - 1, nulls, c);
      assert seq(n, _ => kind)[1..] == seq(n - 1, _ => kind);
    }
  }

  lemma {:induction false} NumberIs(ms: seq<Member>, dims: seq<nat>, nulls: bool, c: Clarity)
    ensures Number(ms, dims, nulls, c) == NumberOf(Kinds(ms, dims), nulls, c)
    decreases |ms|
  {
    if ms != [] {
      NumberIs(ms[1..], dims, nulls, c);
      NumberOfSame(ms[0].kind, ms[0].count(dims), nulls, c);
      NumberOfMore(seq(ms[0].count(dims), _ => ms[0].kind), Kinds(ms[1..], dims), nulls, c);
    }
  }

  lemma {:induction false} NoneIff(kinds: seq<Kind>, nulls: bool, c: Clarity)
    ensures NumberOf(kinds, nulls, c) == 0 <==> forall i | 0 <= i < |kinds| :: ClarityOf(kinds[i], nulls) != c
    decreases |kinds|
  {
    if kinds != [] { NoneIff(kinds[1..], nulls, c); }
  }

  lemma {:induction false} AtMostOneIff(kinds: seq<Kind>, nulls: bool, c: Clarity)
    ensures NumberOf(kinds, nulls, c) <= 1 <==>
      forall i, j | 0 <= i < j < |kinds| :: ClarityOf(kinds[i], nulls) != c || ClarityOf(kinds[j], nulls) != c
    decreases |kinds|
  {
    if kinds != [] {
      NoneIff(kinds[1..], nulls, c);
      AtMostOneIff(kinds[1..], nulls, c);
    }
  }

  ghost predicate AllFit(es: seq<Element>, kinds: seq<Kind>, nulls: bool) {
    |es| == |kinds| && forall k | 0 <= k < |es| :: Fits(es[k], kinds[k], nulls)
  }

  lemma {:induction false} MembersFit(props: seq<seq<Element>>, ms: seq<Member>, dims: seq<nat>, nulls: bool)
    requires HasMembers(props, ms, dims, nulls)
    ensures AllFit(Concat(props), Kinds(ms, dims), nulls)
    decreases |ms|
  {
    if ms != [] { MembersFit(props[1..], ms[1..], dims, nulls); }
  }

  /** The elements distributed to the properties. */
  function Cut(es: seq<Element>, ms: seq<Member>, dims: seq<nat>): seq<seq<Element>>
    requires |es| == |Kinds(ms, dims)|
  {
    if ms == [] then [] else [es[..ms[0].count(dims)]] + Cut(es[ms[0].count(dims)..], ms[1..], dims)
  }

  lemma {:induction false} CutFits(es: seq<Element>, ms: seq<Member>, dims: seq<nat>, nulls: bool)
    requires AllFit(es, Kinds(ms, dims), nulls)
    ensures HasMembers(Cut(es, ms, dims), ms, dims, nulls) && Concat(Cut(es, ms, dims)) == es
    decreases |ms|
  {
    if ms != [] {
      var n := ms[0].count(dims);
      FirstCutFits(es, ms, dims, nulls);
      CutFits(es[n..], ms[1..], dims, nulls);
      assert es == es[..n] + es[n..];
    }
  }

  lemma FirstCutFits(es: seq<Element>, ms: seq<Member>, dims: seq<nat>, nulls: bool)
    requires ms != [] && AllFit(es, Kinds(ms, dims), nulls)
    ensures ms[0].count(dims) <= |es| && AllFit(es[ms[0].count(dims)..], Kinds(ms[1..], dims), nulls)
    ensures forall k | 0 <= k < ms[0].count(dims) :: Fits(es[k], ms[0].kind, nulls)
  {
    var n, kinds := ms[0].count(dims), Kinds(ms, dims);
    forall k | 0 <= k < n ensures Fits(es[k], ms[0].kind, nulls) { assert kinds[k] == ms[0].kind; }
    forall k | 0 <= k < |es[n..]| ensures Fits(es[n..][k], Kinds(ms[1..], dims)[k], nulls) {
      assert kinds[n + k] == Kinds(ms[1..], dims)[k];
    }
  }

  // ----- When texts differ -----

  /** The text tells the instance: no element is blurred, and at most one is loose. */
  predicate Separates(m: Metadata, dims: seq<nat>, nulls: bool) {
    Number(m.members, dims, nulls, Blurred) == 0 && Number(m.members, dims, nulls, Loose) <= 1
  }

  /** Different instances of the metadata, both with or both without a parent, have different texts. */
  ghost predicate TextsDiffer(m: Metadata, nulls: bool, encode: nat -> string) {
    forall a, b | IsInstance(a, m, nulls) && IsInstance(b, m, nulls) && a.link.Some? == b.link.Some?
      && Stream(a, encode) == Stream(b, encode) ::
      a == b
  }

  lemma SameElements(es: seq<Element>, fs: seq<Element>, kinds: seq<Kind>, nulls: bool)
    requires AllFit(es, kinds, nulls) && AllFit(fs, kinds, nulls) && Concat(Texts(es)) == Concat(Texts(fs))
    requires NumberOf(kinds, nulls, Blurred) == 0 && NumberOf(kinds, nulls, Loose) <= 1
    ensures es == fs
  {
    var p, q := Texts(es), Texts(fs);
    NoneIff(kinds, nulls, Blurred);
    AtMostOneIff(kinds, nulls, Loose);
    forall k: nat | k < |kinds| ensures |p[k]| == |q[k]| {
      forall i | 0 <= i < |kinds| && i != k && ClarityOf(kinds[i], nulls).Rigid? ensures |p[i]| == |q[i]| {
        RigidOrLoose(es[i], fs[i], kinds[i], nulls);
      }
      RigidOrLoose(es[k], fs[k], kinds[k], nulls);
      if !ClarityOf(kinds[k], nulls).Rigid? { LastSizeFollows(p, q, k); }
    }
    PartsAreSame(p, q);
    forall k | 0 <= k < |kinds| ensures es[k] == fs[k] {
      assert p[k] == q[k];
      RigidOrLoose(es[k], fs[k], kinds[k], nulls);
    }
  }

  lemma SeparatedTexts(m: Metadata, nulls: bool, encode: nat -> string, width: nat, a: Hashed, b: Hashed)
    requires FixedWidth(encode, width) && IsInstance(a, m, nulls) && IsInstance(b, m, nulls)
    requires Separates(m, a.data.dims, nulls)
    requires a.link.Some? == b.link.Some? && Stream(a, encode) == Stream(b, encode)
    ensures a == b
  {
    StreamParts(a, b, encode, width);
    var p, q, dims := a.data.props, b.data.props, a.data.dims;
    MembersFit(p, m.members, dims, nulls);
    MembersFit(q, m.members, dims, nulls);
    NumberIs(m.members, dims, nulls, Blurred);
    NumberIs(m.members, dims, nulls, Loose);
    SameElements(Concat(p), Concat(q), Kinds(m.members, dims), nulls);
    PartsAreSame(p, q);
  }

  // ----- When texts are the same -----

  lemma {:induction false} ConcatOfXs(s: seq<string>)
    requires forall i | 0 <= i < |s| :: IsXs(s[i])
    ensures Concat(s) == Xs(Total(s))
    decreases |s|
  {
    if s != [] {
      ConcatOfXs(s[1..]);
      assert Xs(|s[0]|) + Xs(Total(s[1..])) == Xs(|s[0]| + Total(s[1..]));
    }
  }

  /** Plain elements, but for number k. */
  function Elements(kinds: seq<Kind>, nulls: bool, k: nat): (es: seq<Element>)
    ensures |es| == |kinds|
  {
    seq(|kinds|, i requires 0 <= i < |kinds| => if i == k then Other(kinds[i], nulls) else Plain(kinds[i]))
  }

  lemma ElementsFit(kinds: seq<Kind>, nulls: bool, k: nat)
    ensures var es := Elements(kinds, nulls, k);
      AllFit(es, kinds, nulls) && Concat(Texts(es)) == Xs(Total(Texts(es)))
  {
    var es := Elements(kinds, nulls, k);
    forall i | 0 <= i < |kinds| ensures Fits(es[i], kinds[i], nulls) && IsXs(Texts(es)[i]) {
      PlainAndOther(kinds[i], nulls);
    }
    ConcatOfXs(Texts(es));
  }

  /** The length of the text, compared with that of plain elements only. */
  lemma ElementsTotal(kinds: seq<Kind>, nulls: bool, k: nat)
    requires k < |kinds|
    ensures Total(Texts(Elements(kinds, nulls, k)))
      == Total(Texts(Elements(kinds, nulls, |kinds|)))
         - |ElementText(Plain(kinds[k]))| + |ElementText(Other(kinds[k], nulls))|
  {
    var s := Texts(Elements(kinds, nulls, |kinds|));
    var t := ElementText(Other(kinds[k], nulls));
    TotalUpdate(s, k, t);
    assert Texts(Elements(kinds, nulls, k)) == s[k := t];
  }

  function Example(m: Metadata, dims: seq<nat>, nulls: bool, k: nat): Hashed {
    var es := Elements(Kinds(m.members, dims), nulls, k);
    Hashed(None, Data(m.uri, dims, Cut(es, m.members, dims)))
  }

  /** Different instances of the metadata, without parents, that have the same text. */
  ghost predicate AreConfused(a: Hashed, b: Hashed, m: Metadata, nulls: bool, encode: nat -> string) {
    && IsInstance(a, m, nulls) && IsInstance(b, m, nulls) && a.link.None? && b.link.None?
    && a != b && Stream(a, encode) == Stream(b, encode)
  }

  lemma ExamplesCollide(m: Metadata, dims: seq<nat>, nulls: bool, encode: nat -> string, j: nat, k: nat)
    requires |dims| == m.ndims && InLimit(dims) && j != k
    requires var kinds := Kinds(m.members, dims);
      && j < |kinds| && k <= |kinds| && !ClarityOf(kinds[j], nulls).Rigid?
      && Total(Texts(Elements(kinds, nulls, j))) == Total(Texts(Elements(kinds, nulls, k)))
    ensures AreConfused(Example(m, dims, nulls, j), Example(m, dims, nulls, k), m, nulls, encode)
  {
    var kinds := Kinds(m.members, dims);
    var es, fs := Elements(kinds, nulls, j), Elements(kinds, nulls, k);
    ElementsFit(kinds, nulls, j);
    ElementsFit(kinds, nulls, k);
    CutFits(es, m.members, dims, nulls);
    CutFits(fs, m.members, dims, nulls);
    PlainAndOther(kinds[j], nulls);
    assert es[j] != fs[j];
    var a, b := Example(m, dims, nulls, j), Example(m, dims, nulls, k);
    assert Stream(a, encode) == Stream(b, encode);
    assert Concat(a.data.props) != Concat(b.data.props);
  }

  /** The loose types of elements are the same, and so are the lengths that they give. */
  lemma LooseIsSame(a: Kind, b: Kind, nulls: bool)
    requires ClarityOf(a, nulls).Loose? && ClarityOf(b, nulls).Loose?
    ensures a == b
  {}

  lemma UnseparatedTexts(m: Metadata, dims: seq<nat>, nulls: bool, encode: nat -> string)
    returns (a: Hashed, b: Hashed)
    requires |dims| == m.ndims && InLimit(dims) && !Separates(m, dims, nulls)
    ensures AreConfused(a, b, m, nulls, encode) && a.data.dims == b.data.dims == dims
  {
    var kinds := Kinds(m.members, dims);
    NumberIs(m.members, dims, nulls, Blurred);
    NumberIs(m.members, dims, nulls, Loose);
    NoneIff(kinds, nulls, Blurred);
    AtMostOneIff(kinds, nulls, Loose);
    if j: nat :| j < |kinds| && ClarityOf(kinds[j], nulls).Blurred? {
      ElementsTotal(kinds, nulls, j);
      PlainAndOther(kinds[j], nulls);
      ExamplesCollide(m, dims, nulls, encode, j, |kinds|);
      a, b := Example(m, dims, nulls, j), Example(m, dims, nulls, |kinds|);
    } else {
      var j: nat, k: nat :| j < k < |kinds| && ClarityOf(kinds[j], nulls).Loose? && ClarityOf(kinds[k], nulls).Loose?;
      LooseIsSame(kinds[j], kinds[k], nulls);
      ElementsTotal(kinds, nulls, j);
      ElementsTotal(kinds, nulls, k);
      ExamplesCollide(m, dims, nulls, encode, j, k);
      a, b := Example(m, dims, nulls, j), Example(m, dims, nulls, k);
    }
  }

  /** The hashed texts of all instances of some metadata differ exactly if for all dimensions the text tells the
      instance: with null pointers if there are no strings, no relations and at most one reference, without null
      pointers if there are no relations and at most one string. */
  lemma TextsDifferIff(m: Metadata, nulls: bool, encode: nat -> string, width: nat)
    requires FixedWidth(encode, width)
    ensures TextsDiffer(m, nulls, encode) <==>
      forall dims | |dims| == m.ndims && InLimit(dims) :: Separates(m, dims, nulls)
  {
    if dims :| |dims| == m.ndims && InLimit(dims) && !Separates(m, dims, nulls) {
      var a, b := UnseparatedTexts(m, dims, nulls, encode);
    } else {
      forall a, b | IsInstance(a, m, nulls) && IsInstance(b, m, nulls) && a.link.Some? == b.link.Some?
        && Stream(a, encode) == Stream(b, encode)
        ensures a == b
      {
        SeparatedTexts(m, nulls, encode, width, a, b);
      }
    }
  }

  // ----- Chains of hashes of these texts -----

  /** The digest of an instance: the hash of its text. */
  function TextDigest(hash: string -> Hash, encode: nat -> string): Digest {
    x => hash(Stream(x, encode))
  }

  /** The metadata with a given URI. */
  type Registry = string -> Metadata

  /** The instances, perhaps of different metadata, have URIs of the same length, both have a parent or none, the text
      of the first one tells it among the instances of its metadata, and the hash has no collision on their texts. */
  ghost predicate Comparable(a: Hashed, b: Hashed, known: Registry, nulls: bool, hash: string -> Hash,
                             encode: nat -> string)
  {
    && IsInstance(a, known(a.data.meta), nulls) && IsInstance(b, known(b.data.meta), nulls)
    && Separates(known(a.data.meta), a.data.dims, nulls)
    && a.link.Some? == b.link.Some? && |a.data.meta| == |b.data.meta|
    && (hash(Stream(a, encode)) == hash(Stream(b, encode)) ==> Stream(a, encode) == Stream(b, encode))
  }

  lemma ComparableIsSame(a: Hashed, b: Hashed, known: Registry, nulls: bool, hash: string -> Hash,
                         encode: nat -> string, width: nat)
    requires FixedWidth(encode, width) && Comparable(a, b, known, nulls, hash, encode)
    requires hash(Stream(a, encode)) == hash(Stream(b, encode))
    ensures a == b
  {
    StreamTellsMetadata(a, b, encode);
    SeparatedTexts(known(a.data.meta), nulls, encode, width, a, b);
  }

  /** The ancestors number 1 to n of both chains are comparable. */
  ghost predicate ComparableTo(v: View, u: Uuid, w: View, x: Uuid, n: nat, known: Registry, nulls: bool,
                               hash: string -> Hash, encode: nat -> string)
    requires u in v && x in w
  {
    forall k: nat | 0 < k <= n && Ancestor(v, u, k).Some? && Ancestor(w, x, k).Some? ::
      Comparable(v[Ancestor(v, u, k).value], w[Ancestor(w, x, k).value], known, nulls, hash, encode)
  }

  lemma ComparableParents(v: View, u: Uuid, w: View, x: Uuid, n: nat, known: Registry, nulls: bool,
                          hash: string -> Hash, encode: nat -> string)
    requires u in v && x in w && n > 0 && ComparableTo(v, u, w, x, n, known, nulls, hash, encode)
    requires v[u].link.Some? && w[x].link.Some? && v[u].link.value.uuid in v && w[x].link.value.uuid in w
    ensures Comparable(v[v[u].link.value.uuid], w[w[x].link.value.uuid], known, nulls, hash, encode)
    ensures ComparableTo(v, v[u].link.value.uuid, w, w[x].link.value.uuid, n - 1, known, nulls, hash, encode)
  {
    var p, q := v[u].link.value.uuid, w[x].link.value.uuid;
    assert Ancestor(v, p, 0) == Some(p) && Ancestor(w, q, 0) == Some(q);
    assert Ancestor(v, u, 1) == Some(p) && Ancestor(w, x, 1) == Some(q);
    forall k: nat | 0 < k <= n - 1 && Ancestor(v, p, k).Some? && Ancestor(w, q, k).Some?
      ensures Comparable(v[Ancestor(v, p, k).value], w[Ancestor(w, q, k).value], known, nulls, hash, encode)
    {
      assert Ancestor(v, u, k + 1) == Ancestor(v, p, k) && Ancestor(w, x, k + 1) == Ancestor(w, q, k);
    }
  }

  /** Chains of hashed texts that verify and whose heads store the same parent hash have the same ancestors, metadata
      included, down to any depth to which they are comparable. */
  lemma {:induction false} TextsAreTamperEvident(v: View, u: Uuid, w: View, x: Uuid, n: nat, known: Registry,
                                                 nulls: bool, hash: string -> Hash, encode: nat -> string, width: nat)
    requires u in v && x in w && n > 0 && FixedWidth(encode, width)
    requires Intact(v, u, TextDigest(hash, encode)) && Intact(w, x, TextDigest(hash, encode))
    requires v[u].link.Some? && w[x].link.Some? && v[u].link.value.hash == w[x].link.value.hash
    requires ComparableTo(v, u, w, x, n, known, nulls, hash, encode)
    ensures Ancestor(v, u, n).Some? == Ancestor(w, x, n).Some?
    ensures Ancestor(v, u, n).Some? ==> v[Ancestor(v, u, n).value] == w[Ancestor(w, x, n).value]
    decreases n
  {
    IntactFromParent(v, u, TextDigest(hash, encode));
    IntactFromParent(w, x, TextDigest(hash, encode));
    var p, q := v[u].link.value.uuid, w[x].link.value.uuid;
    ComparableParents(v, u, w, x, n, known, nulls, hash, encode);
    ComparableIsSame(v[p], w[q], known, nulls, hash, encode, width);
    if n == 1 {
      assert Ancestor(v, p, 0) == Some(p) && Ancestor(w, q, 0) == Some(q);
    } else {
      IntactFromParent(v, p, TextDigest(hash, encode));
      IntactFromParent(w, q, TextDigest(hash, encode));
      if v[p].link.Some? { TextsAreTamperEvident(v, p, w, q, n - 1, known, nulls, hash, encode, width); }
    }
  }

  /** For all other dimensions a changed parent goes unnoticed: two chains with the same head verify although the
      parents differ. */
  lemma TamperedChainVerifies(m: Metadata, dims: seq<nat>, nulls: bool, head: Data, hash: string -> Hash,
                              encode: nat -> string)
    returns (v: View, w: View)
    requires |dims| == m.ndims && InLimit(dims) && !Separates(m, dims, nulls)
    ensures v.Keys == w.Keys == {"u", "p"} && v["u"] == w["u"] && v["u"].data == head && v["p"] != w["p"]
    ensures IsInstance(v["p"], m, nulls) && IsInstance(w["p"], m, nulls)
    ensures v["p"].data.dims == w["p"].data.dims == dims
    ensures Intact(v, "u", TextDigest(hash, encode)) && Intact(w, "u", TextDigest(hash, encode))
    ensures Ancestor(v, "u", 1) == Ancestor(w, "u", 1) == Some("p")
  {
    var a, b := UnseparatedTexts(m, dims, nulls, encode);
    var digest := TextDigest(hash, encode);
    var top := Hashed(Some(Ref("p", digest(a))), head);
    v, w := map["u" := top, "p" := a], map["u" := top, "p" := b];
    PairIsIntact(v, digest);
    PairIsIntact(w, digest);
  }

  lemma PairIsIntact(v: View, digest: Digest)
    requires "u" in v && "p" in v && v["u"].link == Some(Ref("p", digest(v["p"]))) && v["p"].link.None?
    ensures Intact(v, "u", digest) && Ancestor(v, "u", 1) == Some("p")
  {
    IntactFromParent(v, "u", digest);
    IntactFromParent(v, "p", digest);
    assert Ancestor(v, "p", 0) == Some("p");
  }
}
