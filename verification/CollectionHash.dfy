/** Hash of a collection (`dlite-collection.c`): its relations are sorted before they are hashed. */
module CollectionHash {
  import opened Options
  import opened Strings
  import opened Triples

  // ----- Order of triples -----

  /** Sign of strcmp(). */
  function Strcmp(a: string, b: string): (v: int)
    ensures v in {-1, 0, 1}
  {
    if a == "" then if b == "" then 0 else -1
    else if b == "" then 1
    else if a[0] != b[0] then if a[0] < b[0] then -1 else 1
    else Strcmp(a[1..], b[1..])
  }

  lemma {:induction false} StrcmpZeroIff(a: string, b: string)
    ensures Strcmp(a, b) == 0 <==> a == b
  {
    if a != "" && b != "" && a[0] == b[0] {
      StrcmpZeroIff(a[1..], b[1..]);
      assert a == [a[0]] + a[1..] && b == [b[0]] + b[1..];
    }
  }

  lemma {:induction false} StrcmpFlips(a: string, b: string)
    ensures Strcmp(b, a) == -Strcmp(a, b)
  {
    if a != "" && b != "" && a[0] == b[0] { StrcmpFlips(a[1..], b[1..]); }
  }

  lemma {:induction false} StrcmpIsTransitive(a: string, b: string, c: string)
    requires Strcmp(a, b) <= 0 && Strcmp(b, c) <= 0
    ensures Strcmp(a, c) <= 0
  {
    if a != "" && b != "" && c != "" && a[0] == b[0] == c[0] { StrcmpIsTransitive(a[1..], b[1..], c[1..]); }
  }

  function CmpDatatype(a: Option<string>, b: Option<string>): int {
    if a.Some? && b.None? then 1
    else if a.None? && b.Some? then -1
    else if a.Some? && b.Some? then Strcmp(a.value, b.value)
    else 0
  }

  /** _cmp_triple() */
  function CmpTriple(a: Triple, b: Triple): int {
    if Strcmp(a.s, b.s) != 0 then Strcmp(a.s, b.s)
    else if Strcmp(a.p, b.p) != 0 then Strcmp(a.p, b.p)
    else if Strcmp(a.o, b.o) != 0 then Strcmp(a.o, b.o)
    else CmpDatatype(a.d, b.d)
  }

  /** Triples that compare equal are equal. */
  lemma CmpTripleZeroIff(a: Triple, b: Triple)
    ensures CmpTriple(a, b) == 0 <==> a == b
  {
    StrcmpZeroIff(a.s, b.s);
    StrcmpZeroIff(a.p, b.p);
    StrcmpZeroIff(a.o, b.o);
    if a.d.Some? && b.d.Some? { StrcmpZeroIff(a.d.value, b.d.value); }
  }

  lemma CmpTripleFlips(a: Triple, b: Triple)
    ensures CmpTriple(b, a) == -CmpTriple(a, b)
  {
    StrcmpFlips(a.s, b.s);
    StrcmpFlips(a.p, b.p);
    StrcmpFlips(a.o, b.o);
    if a.d.Some? && b.d.Some? { StrcmpFlips(a.d.value, b.d.value); }
  }

  /** A string before or equal to one that is before or equal to a third; equal ends make all three equal. */
  lemma StrcmpChain(a: string, b: string, c: string)
    requires Strcmp(a, b) <= 0 && Strcmp(b, c) <= 0
    ensures Strcmp(a, c) <= 0 && (Strcmp(a, c) == 0 ==> a == b == c)
  {
    StrcmpIsTransitive(a, b, c);
    if Strcmp(a, c) == 0 {
      StrcmpZeroIff(a, c);
      StrcmpFlips(a, b);
      StrcmpZeroIff(a, b);
    }
  }

  lemma CmpTripleIsTransitive(a: Triple, b: Triple, c: Triple)
    requires CmpTriple(a, b) <= 0 && CmpTriple(b, c) <= 0
    ensures CmpTriple(a, c) <= 0
  {
    StrcmpChain(a.s, b.s, c.s);
    if Strcmp(a.s, c.s) == 0 {
      StrcmpZeroIff(a.s, a.s);
      StrcmpChain(a.p, b.p, c.p);
      if Strcmp(a.p, c.p) == 0 {
        StrcmpZeroIff(a.p, a.p);
        StrcmpChain(a.o, b.o, c.o);
        if Strcmp(a.o, c.o) == 0 {
          StrcmpZeroIff(a.o, a.o);
          if a.d.Some? && b.d.Some? && c.d.Some? { StrcmpChain(a.d.value, b.d.value, c.d.value); }
        }
      }
    }
  }

  /** One text is a proper beginning of the other, or has the smaller character where they first differ. */
  ghost predicate Precedes(a: string, b: string) {
    exists n: nat :: PrecedesAt(a, b, n)
  }

  predicate PrecedesAt(a: string, b: string, n: nat) {
    && n <= |a| && n < |b| && a[..n] == b[..n] && (n == |a| || a[n] < b[n])
  }

  lemma {:induction false} StrcmpIsNegativeIff(a: string, b: string)
    ensures Strcmp(a, b) < 0 <==> Precedes(a, b)
    decreases |a|
  {
    if a == "" || b == "" || a[0] != b[0] {
      if b != "" && (a == "" || a[0] < b[0]) { assert PrecedesAt(a, b, 0); }
    } else {
      StrcmpIsNegativeIff(a[1..], b[1..]);
      assert a == [a[0]] + a[1..] && b == [b[0]] + b[1..];
      if n: nat :| PrecedesAt(a[1..], b[1..], n) {
        assert a[..n + 1] == [a[0]] + a[1..][..n] && b[..n + 1] == [b[0]] + b[1..][..n];
        assert PrecedesAt(a, b, n + 1);
      }
      if n: nat :| PrecedesAt(a, b, n) {
        assert a[1..][..n - 1] == a[..n][1..] && b[1..][..n - 1] == b[..n][1..];
        assert PrecedesAt(a[1..], b[1..], n - 1);
      }
    }
  }

  /** Triples are ordered by subject, then by predicate, object and datatype, those without datatype first. */
  lemma CmpTripleIsLexicographic(a: Triple, b: Triple)
    ensures CmpTriple(a, b) < 0 <==>
      || Precedes(a.s, b.s)
      || (a.s == b.s && Precedes(a.p, b.p))
      || (a.s == b.s && a.p == b.p && Precedes(a.o, b.o))
      || (a.s == b.s && a.p == b.p && a.o == b.o && b.d.Some? && (a.d.None? || Precedes(a.d.value, b.d.value)))
  {
    StrcmpIsNegativeIff(a.s, b.s);
    StrcmpIsNegativeIff(a.p, b.p);
    StrcmpIsNegativeIff(a.o, b.o);
    StrcmpZeroIff(a.s, b.s);
    StrcmpZeroIff(a.p, b.p);
    StrcmpZeroIff(a.o, b.o);
    if a.d.Some? && b.d.Some? { StrcmpIsNegativeIff(a.d.value, b.d.value); }
  }

  // ----- Sorting -----

  ghost predicate Sorted(ts: seq<Triple>) {
    forall i, j | 0 <= i < j < |ts| :: CmpTriple(ts[i], ts[j]) <= 0
  }

  function Insert(t: Triple, ts: seq<Triple>): seq<Triple> {
    if ts == [] || CmpTriple(t, ts[0]) <= 0 then [t] + ts else [ts[0]] + Insert(t, ts[1..])
  }

  /** Stands for qsort(): by SortedIsUnique all sorting functions give the same. */
  function Sort(ts: seq<Triple>): seq<Triple> {
    if ts == [] then [] else Insert(ts[0], Sort(ts[1..]))
  }

  lemma FirstIsBelow(t: Triple, ts: seq<Triple>, rest: seq<Triple>)
    requires Sorted(ts) && ts != [] && CmpTriple(ts[0], t) <= 0 && multiset(rest) == multiset(ts[1..]) + multiset{t}
    ensures forall j | 0 <= j < |rest| :: CmpTriple(ts[0], rest[j]) <= 0
  {
    forall j | 0 <= j < |rest| ensures CmpTriple(ts[0], rest[j]) <= 0 {
      assert rest[j] in multiset(rest);
      assert rest[j] in ts[1..] || rest[j] == t;
    }
  }

  lemma {:induction false} InsertKeepsSorted(t: Triple, ts: seq<Triple>)
    requires Sorted(ts)
    ensures Sorted(Insert(t, ts)) && multiset(Insert(t, ts)) == multiset(ts) + multiset{t}
  {
    if ts == [] {
    } else if CmpTriple(t, ts[0]) <= 0 {
      forall j | 0 <= j < |ts| ensures CmpTriple(t, ts[j]) <= 0 {
        if j > 0 { CmpTripleIsTransitive(t, ts[0], ts[j]); }
      }
      SortedCons(t, ts);
    } else {
      var rest := Insert(t, ts[1..]);
      InsertKeepsSorted(t, ts[1..]);
      CmpTripleFlips(t, ts[0]);
      assert ts == [ts[0]] + ts[1..];
      FirstIsBelow(t, ts, rest);
      SortedCons(ts[0], rest);
    }
  }

  lemma SortedCons(t: Triple, ts: seq<Triple>)
    requires Sorted(ts) && forall j | 0 <= j < |ts| :: CmpTriple(t, ts[j]) <= 0
    ensures Sorted([t] + ts)
  {}

  lemma {:induction false} SortSorts(ts: seq<Triple>)
    ensures Sorted(Sort(ts)) && multiset(Sort(ts)) == multiset(ts)
  {
    if ts != [] {
      SortSorts(ts[1..]);
      InsertKeepsSorted(ts[0], Sort(ts[1..]));
      assert ts == [ts[0]] + ts[1..];
    }
  }

  lemma HeadsAreEqual(a: seq<Triple>, b: seq<Triple>)
    requires Sorted(a) && Sorted(b) && multiset(a) == multiset(b) && a != [] && b != []
    ensures a[0] == b[0]
  {
    assert a[0] in multiset(b) && b[0] in multiset(a);
    var j: nat :| j < |b| && b[j] == a[0];
    var i: nat :| i < |a| && a[i] == b[0];
    FirstIsLeast(a, i);
    FirstIsLeast(b, j);
    CmpTripleFlips(a[0], b[0]);
    CmpTripleZeroIff(a[0], b[0]);
  }

  lemma TailsAreEqual(a: seq<Triple>, b: seq<Triple>)
    requires a != [] && b != [] && multiset(a) == multiset(b) && a[0] == b[0]
    ensures multiset(a[1..]) == multiset(b[1..])
  {
    assert a == [a[0]] + a[1..] && b == [b[0]] + b[1..];
    assert multiset(a[1..]) == multiset(a) - multiset{a[0]};
  }

  /** There is only one way to sort triples. */
  lemma {:induction false} SortedIsUnique(a: seq<Triple>, b: seq<Triple>)
    requires Sorted(a) && Sorted(b) && multiset(a) == multiset(b)
    ensures a == b
  {
    assert |multiset(a)| == |a| && |multiset(b)| == |b|;
    if a != [] {
      HeadsAreEqual(a, b);
      TailsAreEqual(a, b);
      SortedIsUnique(a[1..], b[1..]);
      assert a == [a[0]] + a[1..] && b == [b[0]] + b[1..];
    }
  }

  lemma FirstIsLeast(ts: seq<Triple>, i: nat)
    requires Sorted(ts) && i < |ts|
    ensures CmpTriple(ts[0], ts[i]) <= 0
  {
    CmpTripleZeroIff(ts[0], ts[0]);
  }

  // ----- The text that is hashed -----

  const HAS_HASH := "_has-hash"
  const HAS_UUID := "_has-uuid"

  /** Hashes of instances, as hexadecimal text; None if the instance is not found. */
  type InstanceHash = string -> Option<string>

  predicate IsHashOf(t: Triple, s: string) {
    t.s == s && t.p == HAS_HASH
  }

  /** The hash of an instance that is stored first for its label. */
  function FirstHash(ts: seq<Triple>, s: string): Option<Triple> {
    if ts == [] then None else if IsHashOf(ts[0], s) then Some(ts[0]) else FirstHash(ts[1..], s)
  }

  /** What is hashed in front of a relation to an instance. */
  function HashPart(ts: seq<Triple>, t: Triple, hash: InstanceHash): Option<string> {
    var stored := FirstHash(ts, t.s);
    if stored.Some? then Some(IdText(stored.value))
    else if hash(t.o).Some? then Some(t.s + HAS_HASH + hash(t.o).value)
    else None
  }

  /** What a relation adds to the text. */
  function Part(ts: seq<Triple>, t: Triple, hash: InstanceHash): Option<string> {
    if t.p == HAS_HASH then Some("")
    else if t.p == HAS_UUID then
      var part := HashPart(ts, t, hash);
      if part.Some? then Some(part.value + IdText(t)) else None
    else Some(IdText(t))
  }

  function TextOf(ts: seq<Triple>, sorted: seq<Triple>, hash: InstanceHash): Option<string> {
    if sorted == [] then Some("")
    else
      var last := |sorted| - 1;
      var a, b := TextOf(ts, sorted[..last], hash), Part(ts, sorted[last], hash);
      if a.Some? && b.Some? then Some(a.value + b.value) else None
  }

  /** The text hashed for the relations ts, in the order of storage; None on error. */
  function HashText(ts: seq<Triple>, hash: InstanceHash): Option<string> {
    TextOf(ts, Sort(ts), hash)
  }

  // ----- Independence of the order of storage -----

  /** All hashes that are stored for the label of an instance have the same text. */
  ghost predicate HashesAgree(ts: multiset<Triple>) {
    forall u, a, b | u in ts && a in ts && b in ts && u.p == HAS_UUID && IsHashOf(a, u.s) && IsHashOf(b, u.s) ::
      IdText(a) == IdText(b)
  }

  lemma {:induction false} FirstHashIsStored(ts: seq<Triple>, s: string)
    ensures FirstHash(ts, s).Some? ==> FirstHash(ts, s).value in ts && IsHashOf(FirstHash(ts, s).value, s)
    ensures FirstHash(ts, s).None? ==> forall t | t in ts :: !IsHashOf(t, s)
  {
    if ts != [] {
      FirstHashIsStored(ts[1..], s);
      assert ts == [ts[0]] + ts[1..];
    }
  }

  lemma PartIsSame(ts: seq<Triple>, us: seq<Triple>, t: Triple, hash: InstanceHash)
    requires multiset(ts) == multiset(us) && HashesAgree(multiset(ts)) && t in multiset(ts)
    ensures Part(ts, t, hash) == Part(us, t, hash)
  {
    FirstHashIsStored(ts, t.s);
    FirstHashIsStored(us, t.s);
    var a, b := FirstHash(ts, t.s), FirstHash(us, t.s);
    if a.Some? { assert a.value in multiset(ts) && a.value in multiset(us) && a.value in us; }
    if b.Some? { assert b.value in multiset(us) && b.value in multiset(ts) && b.value in ts; }
  }

  lemma {:induction false} TextIsSame(ts: seq<Triple>, us: seq<Triple>, sorted: seq<Triple>, hash: InstanceHash)
    requires multiset(ts) == multiset(us) && HashesAgree(multiset(ts)) && forall t | t in sorted :: t in multiset(ts)
    ensures TextOf(ts, sorted, hash) == TextOf(us, sorted, hash)
  {
    if sorted != [] {
      TextIsSame(ts, us, sorted[..|sorted| - 1], hash);
      PartIsSame(ts, us, sorted[|sorted| - 1], hash);
    }
  }

  /** The hash does not depend on the order in which the relations are stored. */
  lemma HashIgnoresOrder(ts: seq<Triple>, us: seq<Triple>, hash: InstanceHash)
    requires multiset(ts) == multiset(us) && HashesAgree(multiset(ts))
    ensures HashText(ts, hash) == HashText(us, hash)
  {
    SortSorts(ts);
    SortSorts(us);
    SortedIsUnique(Sort(ts), Sort(us));
    forall t | t in Sort(ts) ensures t in multiset(ts) { assert t in multiset(Sort(ts)); }
    TextIsSame(ts, us, Sort(ts), hash);
  }

  // ----- Dependence on the order of storage -----

  lemma Without(ts: seq<Triple>, x: Triple) returns (rest: seq<Triple>)
    requires x in ts
    ensures multiset(ts) == multiset(rest) + multiset{x}
  {
    var i :| 0 <= i < |ts| && ts[i] == x;
    assert ts == ts[..i] + [x] + ts[i + 1..];
    rest := ts[..i] + ts[i + 1..];
  }

  /** Whether a relation can be hashed does not depend on the order. */
  lemma PartFailsAlike(ts: seq<Triple>, us: seq<Triple>, t: Triple, hash: InstanceHash)
    requires multiset(ts) == multiset(us)
    ensures Part(ts, t, hash).Some? == Part(us, t, hash).Some?
  {
    FirstHashIsStored(ts, t.s);
    FirstHashIsStored(us, t.s);
    forall x ensures x in ts <==> x in us { assert x in ts <==> x in multiset(ts); }
  }

  lemma {:induction false} TextFailsAlike(ts: seq<Triple>, us: seq<Triple>, sorted: seq<Triple>, hash: InstanceHash)
    requires multiset(ts) == multiset(us)
    ensures TextOf(ts, sorted, hash).Some? == TextOf(us, sorted, hash).Some?
  {
    if sorted != [] {
      TextFailsAlike(ts, us, sorted[..|sorted| - 1], hash);
      PartFailsAlike(ts, us, sorted[|sorted| - 1], hash);
    }
  }

  predicate IsInstance(t: Triple, s: string) {
    t.s == s && t.p == HAS_UUID
  }

  /** The parts for ts and us are the same, except that pa and pb come in front of the instances labelled s. */
  ghost predicate Swapped(ts: seq<Triple>, us: seq<Triple>, s: string, pa: string, pb: string, hash: InstanceHash) {
    forall t ::
      if IsInstance(t, s) then Part(ts, t, hash) == Some(pa + IdText(t)) && Part(us, t, hash) == Some(pb + IdText(t))
      else Part(ts, t, hash) == Part(us, t, hash)
  }

  lemma FirstOfTwo(rest: seq<Triple>, a: Triple, b: Triple, s: string)
    requires IsHashOf(a, a.s)
    ensures FirstHash([a, b] + rest, s) ==
      if s == a.s then Some(a) else if IsHashOf(b, s) then Some(b) else FirstHash(rest, s)
  {
    var x := [a, b] + rest;
    assert x[1..] == [b] + rest && ([b] + rest)[1..] == rest;
  }

  /** With another hash stored first for a label, what changes is the part in front of its instances. */
  lemma HashesSwapped(rest: seq<Triple>, a: Triple, b: Triple, hash: InstanceHash)
    requires IsHashOf(a, a.s) && IsHashOf(b, a.s)
    ensures Swapped([a, b] + rest, [b, a] + rest, a.s, IdText(a), IdText(b), hash)
  {
    forall t
      ensures if IsInstance(t, a.s) then
          Part([a, b] + rest, t, hash) == Some(IdText(a) + IdText(t))
          && Part([b, a] + rest, t, hash) == Some(IdText(b) + IdText(t))
        else Part([a, b] + rest, t, hash) == Part([b, a] + rest, t, hash)
    {
      FirstOfTwo(rest, a, b, t.s);
      FirstOfTwo(rest, b, a, t.s);
    }
  }

  function Instances(ts: seq<Triple>, s: string): nat {
    if ts == [] then 0 else Instances(ts[..|ts| - 1], s) + if IsInstance(ts[|ts| - 1], s) then 1 else 0
  }

  lemma {:induction false} InstancesCounted(ts: seq<Triple>, s: string, i: nat)
    requires i < |ts| && IsInstance(ts[i], s)
    ensures Instances(ts, s) > 0
  {
    if i < |ts| - 1 { InstancesCounted(ts[..|ts| - 1], s, i); }
  }

  lemma SwappedPartLength(ts: seq<Triple>, us: seq<Triple>, s: string, pa: string, pb: string, t: Triple,
                          hash: InstanceHash)
    requires Swapped(ts, us, s, pa, pb, hash) && Part(ts, t, hash).Some? && Part(us, t, hash).Some?
    ensures |Part(ts, t, hash).value| - |Part(us, t, hash).value| == if IsInstance(t, s) then |pa| - |pb| else 0
  {}

  /** The longer part makes the text longer. */
  lemma {:induction false} SwappedLength(ts: seq<Triple>, us: seq<Triple>, s: string, pa: string, pb: string,
                                         sorted: seq<Triple>, hash: InstanceHash)
    requires Swapped(ts, us, s, pa, pb, hash) && TextOf(ts, sorted, hash).Some? && TextOf(us, sorted, hash).Some?
    requires |pa| > |pb|
    ensures |TextOf(ts, sorted, hash).value| >= |TextOf(us, sorted, hash).value| + Instances(sorted, s)
  {
    if sorted != [] {
      var n := |sorted| - 1;
      SwappedLength(ts, us, s, pa, pb, sorted[..n], hash);
      SwappedPartLength(ts, us, s, pa, pb, sorted[n], hash);
    }
  }

  lemma {:induction false} SwappedText(ts: seq<Triple>, us: seq<Triple>, s: string, pa: string, pb: string,
                                       sorted: seq<Triple>, hash: InstanceHash)
    requires Swapped(ts, us, s, pa, pb, hash) && TextOf(ts, sorted, hash).Some? && TextOf(us, sorted, hash).Some?
    requires |pa| == |pb| && pa != pb && Instances(sorted, s) > 0
    ensures TextOf(ts, sorted, hash) != TextOf(us, sorted, hash)
  {
    var n := |sorted| - 1;
    var t := sorted[n];
    var x, y := TextOf(ts, sorted[..n], hash).value, TextOf(us, sorted[..n], hash).value;
    var p, q := Part(ts, t, hash).value, Part(us, t, hash).value;
    if x + p == y + q {
      SplitSameEnd(x, y, p, q);
      if IsInstance(t, s) { SplitSameEnd(pa, pb, IdText(t), IdText(t)); }
      SwappedText(ts, us, s, pa, pb, sorted[..n], hash);
      assert false;
    }
  }

  lemma SwappedTextsDiffer(ts: seq<Triple>, us: seq<Triple>, s: string, pa: string, pb: string, sorted: seq<Triple>,
                           hash: InstanceHash)
    requires Swapped(ts, us, s, pa, pb, hash) && TextOf(ts, sorted, hash).Some? && TextOf(us, sorted, hash).Some?
    requires pa != pb && Instances(sorted, s) > 0
    ensures TextOf(ts, sorted, hash) != TextOf(us, sorted, hash)
  {
    if |pa| == |pb| {
      SwappedText(ts, us, s, pa, pb, sorted, hash);
    } else if |pa| > |pb| {
      SwappedLength(ts, us, s, pa, pb, sorted, hash);
    } else {
      SwappedLength(us, ts, s, pb, pa, sorted, hash);
    }
  }

  lemma SameSort(ts: seq<Triple>, us: seq<Triple>)
    requires multiset(ts) == multiset(us)
    ensures Sort(ts) == Sort(us)
  {
    SortSorts(ts);
    SortSorts(us);
    SortedIsUnique(Sort(ts), Sort(us));
  }

  lemma InstancesSorted(ts: seq<Triple>, u: Triple)
    requires u in ts && u.p == HAS_UUID
    ensures Instances(Sort(ts), u.s) > 0
  {
    SortSorts(ts);
    assert u in multiset(ts);
    assert u in Sort(ts);
    var i: nat :| i < |Sort(ts)| && Sort(ts)[i] == u;
    InstancesCounted(Sort(ts), u.s, i);
  }

  /** Two orders of the same triples with different hashes. */
  lemma SwappedHash(rest: seq<Triple>, a: Triple, b: Triple, u: Triple, hash: InstanceHash)
    requires IsHashOf(a, a.s) && IsHashOf(b, a.s) && IdText(a) != IdText(b) && u in rest && IsInstance(u, a.s)
    requires HashText([a, b] + rest, hash).Some?
    ensures HashText([a, b] + rest, hash) != HashText([b, a] + rest, hash)
  {
    var x, y := [a, b] + rest, [b, a] + rest;
    assert multiset(x) == multiset{a, b} + multiset(rest) == multiset(y);
    SameSort(x, y);
    TextFailsAlike(x, y, Sort(x), hash);
    HashesSwapped(rest, a, b, hash);
    InstancesSorted(x, u);
    SwappedTextsDiffer(x, y, a.s, IdText(a), IdText(b), Sort(x), hash);
  }

  /** Triples that are stored with two different hashes for a label can be stored in an order that gives
      another hash. */
  lemma DisagreementShows(ts: seq<Triple>, hash: InstanceHash) returns (us: seq<Triple>)
    requires HashText(ts, hash).Some? && !HashesAgree(multiset(ts))
    ensures multiset(us) == multiset(ts) && HashText(us, hash) != HashText(ts, hash)
  {
    var u, a, b :| u in multiset(ts) && a in multiset(ts) && b in multiset(ts) && u.p == HAS_UUID
      && IsHashOf(a, u.s) && IsHashOf(b, u.s) && IdText(a) != IdText(b);
    var rest := WithoutTwo(ts, a, b, u);
    var x, y := [a, b] + rest, [b, a] + rest;
    HashFailsAlike(ts, x, hash);
    SwappedHash(rest, a, b, u, hash);
    us := if HashText(x, hash) != HashText(ts, hash) then x else y;
  }

  lemma WithoutTwo(ts: seq<Triple>, a: Triple, b: Triple, u: Triple) returns (rest: seq<Triple>)
    requires a in multiset(ts) && b in multiset(ts) && u in multiset(ts) && a != b && u != a && u != b
    ensures u in rest && multiset([a, b] + rest) == multiset(ts) == multiset([b, a] + rest)
  {
    var r := Without(ts, a);
    assert b in multiset(r);
    rest := Without(r, b);
    assert u in multiset(rest);
    TwoMore(rest, a, b);
    TwoMore(rest, b, a);
  }

  lemma TwoMore(rest: seq<Triple>, a: Triple, b: Triple)
    ensures multiset([a, b] + rest) == multiset(rest) + multiset{b} + multiset{a}
  {
    assert [a, b] + rest == [a] + ([b] + rest);
  }

  /** The hash is the same for all orders of storage exactly if the hashes stored for each label agree. */
  lemma HashIgnoresOrderIff(ts: seq<Triple>, hash: InstanceHash)
    requires HashText(ts, hash).Some?
    ensures HashesAgree(multiset(ts))
      <==> forall us | multiset(us) == multiset(ts) :: HashText(us, hash) == HashText(ts, hash)
  {
    if HashesAgree(multiset(ts)) {
      forall us | multiset(us) == multiset(ts) ensures HashText(us, hash) == HashText(ts, hash) {
        HashIgnoresOrder(us, ts, hash);
      }
    } else {
      var us := DisagreementShows(ts, hash);
    }
  }

  lemma HashFailsAlike(ts: seq<Triple>, us: seq<Triple>, hash: InstanceHash)
    requires multiset(ts) == multiset(us)
    ensures HashText(ts, hash).Some? == HashText(us, hash).Some?
  {
    SameSort(ts, us);
    TextFailsAlike(ts, us, Sort(ts), hash);
  }
}
