/** Instances in a collection (`dlite-collection.c`): the relations that adding and removing one makes. */
module CollectionMembers {
  import opened Options
  import opened Triples
  import opened TripleStores
  import CollectionHash

  const IS_A := "_is-a"
  const INSTANCE := "Instance"
  const HAS_META := "_has-meta"
  const HAS_DIMMAP := "_has-dimmap"
  const ANY_URI := "xsd:anyURI"

  function Relation(s: string, p: string, o: string, d: Option<string>): NewTriple {
    NewTriple(Some(s), Some(p), Some(o), d, None)
  }

  function IsA(tag: string): NewTriple {
    Relation(tag, IS_A, INSTANCE, None)
  }

  function HasUuid(tag: string, uuid: string): NewTriple {
    Relation(tag, CollectionHash.HAS_UUID, uuid, Some(ANY_URI))
  }

  function HasMeta(tag: string, meta: string): NewTriple {
    Relation(tag, HAS_META, meta, None)
  }

  function LabelPattern(tag: string): Pattern {
    Pattern(Some(tag), Some(IS_A), Some(INSTANCE), None)
  }

  function PredicatePattern(tag: string, p: string): Pattern {
    Pattern(Some(tag), Some(p), None, None)
  }

  /** The relations of a member are added one by one. */
  function WithMember(tab: Table, tag: string, uuid: string, meta: string, digest: Digest): Table {
    AddOne(AddOne(AddOne(tab, IsA(tag), digest, 0), HasUuid(tag, uuid), digest, 0), HasMeta(tag, meta), digest, 0)
  }

  /** The relations that are removed together with a member. */
  function WithoutMember(tab: Table, tag: string, lazy: bool): Table {
    WithoutDescription(RemoveMatching(tab, LabelPattern(tag), lazy), tag, lazy)
  }

  function WithoutDescription(tab: Table, tag: string, lazy: bool): Table {
    var u := RemoveMatching(tab, PredicatePattern(tag, CollectionHash.HAS_UUID), lazy);
    var v := RemoveMatching(u, PredicatePattern(tag, HAS_META), lazy);
    RemoveMatching(v, PredicatePattern(tag, HAS_DIMMAP), lazy)
  }

  lemma {:induction false} NothingBelow(slots: seq<Slot>, i: nat, pat: Pattern, lazy: bool)
    requires i <= |slots| && CountBelow(slots, i, pat) == 0
    ensures RemoveBelow(slots, i, pat, lazy) == slots
    ensures forall j | 0 <= j < i && slots[j].Live() :: !Matches(pat, slots[j].t)
    decreases i
  {
    if i > 0 { NothingBelow(slots, i - 1, pat, lazy); }
  }

  /** A removal that removes nothing changes nothing. */
  lemma NothingRemoved(tab: Table, pat: Pattern, lazy: bool)
    requires tab.Valid() && CountBelow(tab.slots, |tab.slots|, pat) == 0
    ensures RemoveMatching(tab, pat, lazy) == tab
  {
    NothingBelow(tab.slots, |tab.slots|, pat, lazy);
    ContentsAre(tab.slots);
    assert PruneIndex(tab, pat) == tab.index;
  }

  /** The relations of members that are in the way of a member with this label. */
  predicate About(tag: string, t: Triple) {
    t.s == tag && (t.p in {CollectionHash.HAS_UUID, HAS_META, HAS_DIMMAP} || (t.p == IS_A && t.o == INSTANCE))
  }

  lemma WithoutMemberKeeps(tab: Table, tag: string, lazy: bool)
    requires tab.Valid()
    ensures WithoutMember(tab, tag, lazy).Valid()
    ensures var m, r := Contents(tab.slots), Contents(WithoutMember(tab, tag, lazy).slots);
      r == map id | id in m && !About(tag, m[id]) :: m[id]
  {
    var t := RemoveMatching(tab, LabelPattern(tag), lazy);
    RemoveMatchingKeeps(tab, LabelPattern(tag), lazy);
    var u := RemoveMatching(t, PredicatePattern(tag, CollectionHash.HAS_UUID), lazy);
    RemoveMatchingKeeps(t, PredicatePattern(tag, CollectionHash.HAS_UUID), lazy);
    var v := RemoveMatching(u, PredicatePattern(tag, HAS_META), lazy);
    RemoveMatchingKeeps(u, PredicatePattern(tag, HAS_META), lazy);
    RemoveMatchingKeeps(v, PredicatePattern(tag, HAS_DIMMAP), lazy);
    FourFilters(Contents(tab.slots), tag);
  }

  lemma FourFilters(m: map<string, Triple>, tag: string)
    ensures WithoutMatches(WithoutMatches(WithoutMatches(WithoutMatches(m, LabelPattern(tag)),
                PredicatePattern(tag, CollectionHash.HAS_UUID)), PredicatePattern(tag, HAS_META)),
                PredicatePattern(tag, HAS_DIMMAP))
      == map id | id in m && !About(tag, m[id]) :: m[id]
  {}

  /** The texts that are digested for the relations of a member always differ. */
  lemma MemberTextsDiffer(tag: string, uuid: string, meta: string)
    ensures IdText(IsA(tag).ToTriple()) != IdText(HasUuid(tag, uuid).ToTriple())
    ensures IdText(IsA(tag).ToTriple()) != IdText(HasMeta(tag, meta).ToTriple())
    ensures IdText(HasUuid(tag, uuid).ToTriple()) != IdText(HasMeta(tag, meta).ToTriple())
  {
    var n := |tag|;
    var a, b, c := IdText(IsA(tag).ToTriple()), IdText(HasUuid(tag, uuid).ToTriple()),
      IdText(HasMeta(tag, meta).ToTriple());
    assert a[n + 1] == IS_A[1] && b[n + 1] == CollectionHash.HAS_UUID[1] && c[n + 1] == HAS_META[1];
    assert b[n + 5] == CollectionHash.HAS_UUID[5] && c[n + 5] == HAS_META[5];
  }

  /** The ids of the new relations are not in use, and their texts have different digests if they differ. */
  predicate FreshIds(tab: Table, tag: string, uuid: string, meta: string, digest: Digest) {
    var a, b, c := IdText(IsA(tag).ToTriple()), IdText(HasUuid(tag, uuid).ToTriple()),
      IdText(HasMeta(tag, meta).ToTriple());
    && digest(a) !in tab.index && digest(b) !in tab.index && digest(c) !in tab.index
    && (digest(a) == digest(b) ==> a == b) && (digest(a) == digest(c) ==> a == c) && (digest(b) == digest(c) ==> b == c)
  }

  lemma WithMemberAdds(tab: Table, tag: string, uuid: string, meta: string, digest: Digest)
    requires tab.Valid() && FreshIds(tab, tag, uuid, meta, digest)
    ensures WithMember(tab, tag, uuid, meta, digest).Valid()
    ensures Contents(WithMember(tab, tag, uuid, meta, digest).slots)
      == Contents(tab.slots)[IdOf(IsA(tag), digest) := IsA(tag).ToTriple()]
           [IdOf(HasUuid(tag, uuid), digest) := HasUuid(tag, uuid).ToTriple()]
           [IdOf(HasMeta(tag, meta), digest) := HasMeta(tag, meta).ToTriple()]
  {
    MemberTextsDiffer(tag, uuid, meta);
    AddOneInserts(tab, IsA(tag), digest, 0);
    var t := AddOne(tab, IsA(tag), digest, 0);
    AddOneInserts(t, HasUuid(tag, uuid), digest, 0);
    AddOneInserts(AddOne(t, HasUuid(tag, uuid), digest, 0), HasMeta(tag, meta), digest, 0);
  }

  lemma LabelIsUsedIff(slots: seq<Slot>, tag: string)
    ensures Search(slots, 0, LabelPattern(tag), true) >= |slots| <==> forall x | x in slots && x.Live() ::
      !(x.t.s == tag && x.t.p == "_is-a" && x.t.o == "Instance")
  {
    SearchIsFirst(slots, 0, LabelPattern(tag), true);
    var i := Search(slots, 0, LabelPattern(tag), true);
    if i < |slots| { assert slots[i] in slots; }
  }

  // ----- Looking up a member -----

  /** A search goes on in what has been added. */
  lemma SearchAppended(slots: seq<Slot>, more: seq<Slot>, pat: Pattern, n: nat)
    requires n < |more| && Hits(more[n], pat, true) && forall j | 0 <= j < n :: !Hits(more[j], pat, true)
    ensures var k := Search(slots, 0, pat, true);
      Search(slots + more, 0, pat, true) == if k < |slots| then k else |slots| + n
  {
    var all, k := slots + more, Search(slots, 0, pat, true);
    var i := Search(all, 0, pat, true);
    assert all[|slots| + n] == more[n];
    if k < |slots| { assert all[k] == slots[k]; }
    if i < |slots| { assert all[i] == slots[i]; } else if i < |all| { assert all[i] == more[i - |slots|]; }
  }

  lemma WithMemberAppends(tab: Table, tag: string, uuid: string, meta: string, digest: Digest)
    requires tab.Valid() && FreshIds(tab, tag, uuid, meta, digest)
    ensures WithMember(tab, tag, uuid, meta, digest).slots == tab.slots
      + [Slot(Some(IdOf(IsA(tag), digest)), Triple(tag, "_is-a", "Instance", None)),
         Slot(Some(IdOf(HasUuid(tag, uuid), digest)), Triple(tag, "_has-uuid", uuid, Some("xsd:anyURI"))),
         Slot(Some(IdOf(HasMeta(tag, meta), digest)), Triple(tag, "_has-meta", meta, None))]
  {
    MemberTextsDiffer(tag, uuid, meta);
  }

  /** dlite_collection_get() and the like for a member that has been added find its uuid and metadata, unless there
      was such a relation for the label before. */
  lemma AddedIsFound(tab: Table, tag: string, uuid: string, meta: string, digest: Digest)
    requires tab.Valid() && FreshIds(tab, tag, uuid, meta, digest)
    ensures var slots := WithMember(tab, tag, uuid, meta, digest).slots;
      var i, j := Search(slots, 0, PredicatePattern(tag, "_has-uuid"), true),
        Search(slots, 0, PredicatePattern(tag, "_has-meta"), true);
      && i < |slots| && j < |slots|
      && ((forall x | x in tab.slots && x.Live() :: !(x.t.s == tag && x.t.p == "_has-uuid")) ==> slots[i].t.o == uuid)
      && ((forall x | x in tab.slots && x.Live() :: !(x.t.s == tag && x.t.p == "_has-meta")) ==> slots[j].t.o == meta)
  {
    WithMemberAppends(tab, tag, uuid, meta, digest);
    var slots := WithMember(tab, tag, uuid, meta, digest).slots;
    var more := slots[|tab.slots|..];
    assert slots == tab.slots + more;
    assert "_is-a"[1] == 'i' && "_has-uuid"[1] == 'h' && "_has-meta"[1] == 'h';
    assert "_has-uuid"[5] == 'u' && "_has-meta"[5] == 'm';
    SearchAppended(tab.slots, more, PredicatePattern(tag, "_has-uuid"), 1);
    SearchAppended(tab.slots, more, PredicatePattern(tag, "_has-meta"), 2);
    SearchIsFirst(tab.slots, 0, PredicatePattern(tag, "_has-uuid"), true);
    SearchIsFirst(tab.slots, 0, PredicatePattern(tag, "_has-meta"), true);
  }

  /** Removing a member that has been added leaves the relations that there were before, whatever is removed
      lazily, exactly if none of these were about its label. */
  lemma RemoveUndoesAdd(tab: Table, tag: string, uuid: string, meta: string, digest: Digest, lazy: bool)
    requires tab.Valid() && FreshIds(tab, tag, uuid, meta, digest)
    ensures Contents(WithoutMember(WithMember(tab, tag, uuid, meta, digest), tag, lazy).slots) == Contents(tab.slots)
      <==> forall id | id in Contents(tab.slots) :: !About(tag, Contents(tab.slots)[id])
  {
    var added := WithMember(tab, tag, uuid, meta, digest);
    WithMemberAdds(tab, tag, uuid, meta, digest);
    WithoutMemberKeeps(added, tag, lazy);
    ThreeMore(Contents(tab.slots), IdOf(IsA(tag), digest), IsA(tag).ToTriple(), IdOf(HasUuid(tag, uuid), digest),
              HasUuid(tag, uuid).ToTriple(), IdOf(HasMeta(tag, meta), digest), HasMeta(tag, meta).ToTriple(), tag);
    FilterUndoes(Contents(tab.slots), Contents(added.slots), Contents(WithoutMember(added, tag, lazy).slots), tag);
  }

  lemma ThreeMore(m: map<string, Triple>, a: string, x: Triple, b: string, y: Triple, c: string, z: Triple, tag: string)
    requires a !in m && b !in m && c !in m && About(tag, x) && About(tag, y) && About(tag, z)
    ensures var r := m[a := x][b := y][c := z];
      && (forall id | id in m :: id in r && r[id] == m[id])
      && forall id | id in r && id !in m :: About(tag, r[id])
  {}

  lemma FilterUndoes(m: map<string, Triple>, added: map<string, Triple>, r: map<string, Triple>, tag: string)
    requires r == map id | id in added && !About(tag, added[id]) :: added[id]
    requires forall id | id in m :: id in added && added[id] == m[id]
    requires forall id | id in added && id !in m :: About(tag, added[id])
    ensures r == m <==> forall id | id in m :: !About(tag, m[id])
  {
    if r == m {
      forall id | id in m ensures !About(tag, m[id]) { assert id in r; }
    }
  }
}
