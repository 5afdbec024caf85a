/** The table behind the built-in triplestore (`triplestore-builtin.c`) as a value: the used part of the
    triple array, in which removed entries may be pending, and the index from ids.  The functions here
    specify the methods of `TripleStore`. */
module Triples {
  import opened Options
  import opened Strings

  datatype Triple = Triple(s: string, p: string, o: string, d: Option<string>)

  /** A used array element; without an id it is a removal that is still pending. */
  datatype Slot = Slot(id: Option<string>, t: Triple) {
    predicate Live() {
      id.Some?
    }
  }

  /** Search pattern; absent fields match anything. */
  datatype Pattern = Pattern(s: Option<string>, p: Option<string>, o: Option<string>, d: Option<string>)

  predicate MatchesSpo(pat: Pattern, t: Triple) {
    && (pat.s.Some? ==> pat.s.value == t.s)
    && (pat.p.Some? ==> pat.p.value == t.p)
    && (pat.o.Some? ==> pat.o.value == t.o)
  }

  /** The test made by triplestore_find_first() and triplestore_remove(). */
  predicate Matches(pat: Pattern, t: Triple) {
    MatchesSpo(pat, t) && (pat.d.Some? ==> t.d == pat.d)
  }

  /** The test made by triplestore_find(): an empty datatype also matches non-literal objects. */
  predicate MatchesFind(pat: Pattern, t: Triple) {
    MatchesSpo(pat, t) && (pat.d.Some? ==> (pat.d.value == "" && t.d.None?) || t.d == pat.d)
  }

  /** In some field that is given the triple differs from the pattern. */
  predicate Differs(pat: Pattern, t: Triple) {
    || (pat.s.Some? && t.s != pat.s.value) || (pat.p.Some? && t.p != pat.p.value)
    || (pat.o.Some? && t.o != pat.o.value) || (pat.d.Some? && t.d != Some(pat.d.value))
  }

  lemma MatchesUnlessDiffers(pat: Pattern, t: Triple)
    ensures Matches(pat, t) <==> !Differs(pat, t)
    ensures MatchesFind(pat, t) <==> !Differs(if pat.d == Some("") && t.d.None? then pat.(d := None) else pat, t)
  {}

  /** The two tests disagree exactly on non-literal objects searched with an empty datatype. */
  lemma MatchersDifferIff(pat: Pattern, t: Triple)
    ensures MatchesFind(pat, t) != Matches(pat, t) <==> MatchesSpo(pat, t) && pat.d == Some("") && t.d == None
  {}

  predicate Distinct(slots: seq<Slot>) {
    forall i {:trigger IsLastWithId(slots, i)} | 0 <= i < |slots| && slots[i].Live() :: IsLastWithId(slots, i)
  }

  predicate IsLastWithId(slots: seq<Slot>, i: nat)
    requires i < |slots|
  {
    forall j | i < j < |slots| :: slots[i].id != slots[j].id
  }

  lemma DistinctIff(slots: seq<Slot>)
    ensures Distinct(slots) <==> forall i, j | 0 <= i < j < |slots| && slots[i].Live() :: slots[i].id != slots[j].id
  {
    if Distinct(slots) {
      forall i, j | 0 <= i < j < |slots| && slots[i].Live() ensures slots[i].id != slots[j].id {
        assert IsLastWithId(slots, i);
      }
    }
  }

  lemma PrefixIsDistinct(slots: seq<Slot>, n: nat)
    requires Distinct(slots) && n <= |slots|
    ensures Distinct(slots[..n])
  {
    DistinctIff(slots);
    DistinctIff(slots[..n]);
  }

  predicate AllLive(slots: seq<Slot>) {
    forall i | 0 <= i < |slots| :: slots[i].Live()
  }

  function LiveCount(slots: seq<Slot>): (n: nat)
    ensures n <= |slots|
    ensures n == |slots| <==> AllLive(slots)
  {
    if slots == [] then 0
    else
      var last := |slots| - 1;
      assert slots == slots[..last] + [slots[last]];
      LiveCount(slots[..last]) + if slots[last].Live() then 1 else 0
  }

  /** The finite map from id to triple that the table stands for. */
  function Contents(slots: seq<Slot>): (m: map<string, Triple>) {
    if slots == [] then map[]
    else
      var last := |slots| - 1;
      var m := Contents(slots[..last]);
      if slots[last].Live() then m[slots[last].id.value := slots[last].t] else m
  }

  /** The map holds exactly the live entries. */
  ghost predicate Holds(m: map<string, Triple>, slots: seq<Slot>) {
    forall id, t :: id in m && m[id] == t <==> Slot(Some(id), t) in slots
  }

  lemma {:induction false} ContentsHold(slots: seq<Slot>)
    requires Distinct(slots)
    ensures Holds(Contents(slots), slots)
  {
    if slots != [] {
      var last := |slots| - 1;
      PrefixIsDistinct(slots, last);
      ContentsHold(slots[..last]);
      assert slots == slots[..last] + [slots[last]];
      if slots[last].Live() { LastIsNew(slots); }
    }
  }

  lemma LastIsNew(slots: seq<Slot>)
    requires Distinct(slots) && slots != [] && slots[|slots| - 1].Live()
    ensures forall x | x in slots[..|slots| - 1] :: x.id != slots[|slots| - 1].id
  {
    var last := |slots| - 1;
    DistinctIff(slots);
    forall x | x in slots[..last] ensures x.id != slots[last].id {
      var i: nat :| i < last && slots[i] == x;
    }
  }

  lemma {:induction false} ContentsCount(slots: seq<Slot>)
    requires Distinct(slots)
    ensures |Contents(slots)| == LiveCount(slots)
  {
    if slots != [] {
      var last := |slots| - 1;
      var init, x := slots[..last], slots[last];
      PrefixIsDistinct(slots, last);
      ContentsCount(init);
      if x.Live() {
        ContentsHold(init);
        LastIsNew(slots);
        var m := Contents(init);
        assert forall id | id in m :: Slot(Some(id), m[id]) in init;
        assert x.id.value !in m;
        assert Contents(slots).Keys == m.Keys + {x.id.value};
      }
    }
  }

  lemma ContentsAre(slots: seq<Slot>)
    requires Distinct(slots)
    ensures forall id, t :: id in Contents(slots) && Contents(slots)[id] == t <==> Slot(Some(id), t) in slots
    ensures forall id | id in Contents(slots) :: Slot(Some(id), Contents(slots)[id]) in slots
    ensures |Contents(slots)| == LiveCount(slots)
  {
    ContentsHold(slots);
    ContentsCount(slots);
  }

  /** Tables with the same live entries stand for the same map. */
  lemma SameContents(a: seq<Slot>, b: seq<Slot>)
    requires Distinct(a) && Distinct(b)
    requires forall x: Slot | x.Live() :: x in a <==> x in b
    ensures Contents(a) == Contents(b)
  {
    ContentsAre(a);
    ContentsAre(b);
    forall id | id in Contents(a) ensures id in Contents(b) && Contents(a)[id] == Contents(b)[id] {
      assert Slot(Some(id), Contents(a)[id]) in a;
    }
    forall id | id in Contents(b) ensures id in Contents(a) {
      assert Slot(Some(id), Contents(b)[id]) in b;
    }
  }

  // ----- Adding -----

  /** Input of triplestore_add_triples(). */
  datatype NewTriple = NewTriple(s: Option<string>, p: Option<string>, o: Option<string>, d: Option<string>,
                                 id: Option<string>) {
    /** A triple that brings its own id must be complete. */
    predicate Defined() {
      id.Some? ==> Complete()
    }

    predicate Complete() {
      s.Some? && p.Some? && o.Some?
    }

    function ToTriple(): Triple
      requires Complete()
    {
      Triple(s.value, p.value, o.value, d)
    }
  }

  /** Digest of a string, with the default namespace in front (SHA-1 in the source). */
  type Digest = string -> string

  /** The text that is digested to get the id of a triple: its fields, without separators. */
  function IdText(t: Triple): string {
    t.s + t.p + t.o + if t.d.Some? then t.d.value else ""
  }

  function IdOf(x: NewTriple, digest: Digest): string
    requires x.Complete()
  {
    if x.id.Some? then x.id.value else digest(IdText(x.ToTriple()))
  }

  datatype Table = Table(slots: seq<Slot>, index: map<string, nat>) {
    ghost predicate Valid() {
      Distinct(slots) && index.Keys == Contents(slots).Keys
    }
  }

  /** Insert if absent.  The index gets the position in the batch, not the position in the array. */
  function AddOne(tab: Table, x: NewTriple, digest: Digest, i: nat): Table
    requires x.Complete()
  {
    var id := IdOf(x, digest);
    if id in tab.index then tab
    else Table(tab.slots + [Slot(Some(id), x.ToTriple())], tab.index[id := i])
  }

  /** Adds the triples from position i of the batch on, up to the first one without subject, predicate
      or object. */
  function AddFrom(tab: Table, batch: seq<NewTriple>, digest: Digest, i: nat): Table
    requires i <= |batch|
    decreases |batch| - i
  {
    if i == |batch| || !batch[i].Complete() then tab
    else AddFrom(AddOne(tab, batch[i], digest, i), batch, digest, i + 1)
  }

  lemma AddFromStep(tab: Table, batch: seq<NewTriple>, digest: Digest, i: nat)
    requires i < |batch| && batch[i].Complete()
    ensures AddFrom(tab, batch, digest, i) == AddFrom(AddOne(tab, batch[i], digest, i), batch, digest, i + 1)
  {}

  /** A batch is added up to the first incomplete triple. */
  lemma {:induction false} BatchStops(tab: Table, batch: seq<NewTriple>, digest: Digest, i: nat, k: nat)
    requires i <= k < |batch| && !batch[k].Complete()
    ensures AddFrom(tab, batch, digest, i) == AddFrom(tab, batch[..k], digest, i)
    decreases k - i
  {
    if i < k && batch[i].Complete() { BatchStops(AddOne(tab, batch[i], digest, i), batch, digest, i + 1, k); }
  }

  lemma AppendedContents(slots: seq<Slot>, x: Slot)
    requires Distinct(slots) && x.Live() && x.id.value !in Contents(slots)
    ensures Distinct(slots + [x]) && Contents(slots + [x]) == Contents(slots)[x.id.value := x.t]
  {
    ContentsAre(slots);
    var more := slots + [x];
    assert more[..|slots|] == slots;
    DistinctIff(slots);
    DistinctIff(more);
    forall i, j | 0 <= i < j < |more| && more[i].Live() ensures more[i].id != more[j].id {
      if j == |slots| { assert Slot(Some(slots[i].id.value), slots[i].t) in slots; }
    }
  }

  /** Adding keeps the table valid and inserts the triple exactly if its id is absent. */
  lemma AddOneInserts(tab: Table, x: NewTriple, digest: Digest, i: nat)
    requires tab.Valid() && x.Complete()
    ensures AddOne(tab, x, digest, i).Valid()
    ensures var id, m := IdOf(x, digest), Contents(tab.slots);
      Contents(AddOne(tab, x, digest, i).slots) == if id in m then m else m[id := x.ToTriple()]
  {
    if IdOf(x, digest) !in tab.index {
      AppendedContents(tab.slots, Slot(Some(IdOf(x, digest)), x.ToTriple()));
    }
  }

  /** The later table extends the earlier one by live entries and index keys. */
  ghost predicate Extends(later: Table, earlier: Table) {
    && earlier.slots <= later.slots && AllLive(later.slots[|earlier.slots|..])
    && forall k | k in earlier.index :: k in later.index && later.index[k] == earlier.index[k]
  }

  lemma ExtendsTransitive(a: Table, b: Table, c: Table)
    requires Extends(b, a) && Extends(c, b)
    ensures Extends(c, a)
  {
    var n := |a.slots|;
    assert c.slots[n..] == b.slots[n..] + c.slots[|b.slots|..];
  }

  lemma {:induction false} AddFromKeeps(tab: Table, batch: seq<NewTriple>, digest: Digest, i: nat)
    requires tab.Valid() && i <= |batch|
    ensures AddFrom(tab, batch, digest, i).Valid() && Extends(AddFrom(tab, batch, digest, i), tab)
    decreases |batch| - i
  {
    if i < |batch| && batch[i].Complete() {
      AddOneInserts(tab, batch[i], digest, i);
      var next := AddOne(tab, batch[i], digest, i);
      AddFromKeeps(next, batch, digest, i + 1);
      ExtendsTransitive(tab, next, AddFrom(next, batch, digest, i + 1));
    }
  }

  /** The fields of the triples have the same lengths, and both or neither have a datatype. */
  predicate SameLengths(a: Triple, b: Triple) {
    |a.s| == |b.s| && |a.p| == |b.p| && |a.o| == |b.o| && a.d.Some? == b.d.Some?
  }

  lemma TextAndLengths(a: Triple, b: Triple)
    requires IdText(a) == IdText(b)
    ensures a == b <==> SameLengths(a, b)
  {
    if SameLengths(a, b) {
      SplitSame(a.s + a.p + a.o, b.s + b.p + b.o,
                if a.d.Some? then a.d.value else "", if b.d.Some? then b.d.value else "");
      SplitSame(a.s + a.p, b.s + b.p, a.o, b.o);
      SplitSame(a.s, b.s, a.p, b.p);
    }
  }

  /** Triples without ids of their own are equal exactly if their ids are and their fields have the same lengths,
      if the digest has no collision on their two texts. */
  lemma SameIdIff(a: NewTriple, b: NewTriple, digest: Digest)
    requires a.Complete() && b.Complete() && a.id.None? && b.id.None?
    requires NoCollision(a.ToTriple(), b.ToTriple(), digest)
    ensures a.ToTriple() == b.ToTriple()
      <==> IdOf(a, digest) == IdOf(b, digest) && SameLengths(a.ToTriple(), b.ToTriple())
  {
    if IdOf(a, digest) == IdOf(b, digest) { TextAndLengths(a.ToTriple(), b.ToTriple()); }
  }

  predicate NoCollision(a: Triple, b: Triple, digest: Digest) {
    digest(IdText(a)) == digest(IdText(b)) ==> IdText(a) == IdText(b)
  }

  // ----- Which triples are dropped -----

  /** The first triple with the given id: the one in the map, or the first one of the batch from i on. */
  function FirstWith(m: map<string, Triple>, batch: seq<NewTriple>, digest: Digest, id: string, i: nat): Option<Triple>
    requires i <= |batch| && forall j | i <= j < |batch| :: batch[j].Complete()
    decreases |batch| - i
  {
    if id in m then Some(m[id])
    else if i == |batch| then None
    else if IdOf(batch[i], digest) == id then Some(batch[i].ToTriple())
    else FirstWith(m, batch, digest, id, i + 1)
  }

  lemma {:induction false} FirstWithKnown(m: map<string, Triple>, k: map<string, Triple>, batch: seq<NewTriple>,
                                          digest: Digest, id: string, i: nat)
    requires i <= |batch| && forall j | i <= j < |batch| :: batch[j].Complete()
    requires (id in m) == (id in k) && (id in m ==> m[id] == k[id])
    ensures FirstWith(m, batch, digest, id, i) == FirstWith(k, batch, digest, id, i)
    decreases |batch| - i
  {
    if id !in m && i < |batch| && IdOf(batch[i], digest) != id { FirstWithKnown(m, k, batch, digest, id, i + 1); }
  }

  /** Of the triples with the same id the first one stays. */
  lemma {:induction false} FirstOneStays(tab: Table, batch: seq<NewTriple>, digest: Digest, id: string, i: nat)
    requires tab.Valid() && i <= |batch| && forall j | i <= j < |batch| :: batch[j].Complete()
    ensures var m := Contents(AddFrom(tab, batch, digest, i).slots);
      var first := FirstWith(Contents(tab.slots), batch, digest, id, i);
      (id in m <==> first.Some?) && (id in m ==> m[id] == first.value)
    decreases |batch| - i
  {
    if i < |batch| {
      var next := AddOne(tab, batch[i], digest, i);
      AddOneInserts(tab, batch[i], digest, i);
      FirstOneStays(next, batch, digest, id, i + 1);
      if IdOf(batch[i], digest) != id {
        FirstWithKnown(Contents(tab.slots), Contents(next.slots), batch, digest, id, i + 1);
      }
    }
  }

  /** Every triple is stored under the id that belongs to it. */
  ghost predicate IdsBelong(m: map<string, Triple>, digest: Digest) {
    forall id | id in m :: id == digest(IdText(m[id]))
  }

  lemma {:induction false} FirstBelongs(m: map<string, Triple>, batch: seq<NewTriple>, digest: Digest, id: string,
                                        i: nat)
    requires IdsBelong(m, digest) && i <= |batch|
    requires forall j | i <= j < |batch| :: batch[j].Complete() && batch[j].id.None?
    ensures var first := FirstWith(m, batch, digest, id, i); first.Some? ==> id == digest(IdText(first.value))
    decreases |batch| - i
  {
    if id !in m && i < |batch| && IdOf(batch[i], digest) != id { FirstBelongs(m, batch, digest, id, i + 1); }
  }

  lemma {:induction false} FirstIsThere(m: map<string, Triple>, batch: seq<NewTriple>, digest: Digest, i: nat, k: nat)
    requires i <= k < |batch| && forall j | i <= j < |batch| :: batch[j].Complete()
    ensures FirstWith(m, batch, digest, IdOf(batch[k], digest), i).Some?
    decreases |batch| - i
  {
    if i < k { FirstIsThere(m, batch, digest, i + 1, k); }
  }

  /** After a batch has been added, triple k of it is in the store exactly if the first triple with its id has
      fields of the same lengths; else that one, which is different, is there in its place. */
  lemma KeptIff(tab: Table, batch: seq<NewTriple>, digest: Digest, k: nat)
    requires tab.Valid() && IdsBelong(Contents(tab.slots), digest) && k < |batch|
    requires forall j | 0 <= j < |batch| :: batch[j].Complete() && batch[j].id.None?
    requires forall t :: NoCollision(t, batch[k].ToTriple(), digest)
    ensures var m, t := Contents(AddFrom(tab, batch, digest, 0).slots), batch[k].ToTriple();
      var first := FirstWith(Contents(tab.slots), batch, digest, IdOf(batch[k], digest), 0);
      first.Some? && (t in m.Values <==> SameLengths(first.value, t))
  {
    var m, t, id := Contents(AddFrom(tab, batch, digest, 0).slots), batch[k].ToTriple(), IdOf(batch[k], digest);
    var first := FirstWith(Contents(tab.slots), batch, digest, id, 0);
    FirstIsThere(Contents(tab.slots), batch, digest, 0, k);
    FirstBelongs(Contents(tab.slots), batch, digest, id, 0);
    FirstOneStays(tab, batch, digest, id, 0);
    assert NoCollision(first.value, t, digest);
    TextAndLengths(first.value, t);
    if t in m.Values {
      var i :| i in m && m[i] == t;
      FirstOneStays(tab, batch, digest, i, 0);
      FirstBelongs(Contents(tab.slots), batch, digest, i, 0);
    }
  }

  /** A triple without and one with an empty datatype have the same id. */
  lemma EmptyDatatypeIsDropped(t: Triple, digest: Digest)
    requires t.d.None?
    ensures var a := NewTriple(Some(t.s), Some(t.p), Some(t.o), None, None);
      var b := a.(d := Some(""));
      var tab := AddFrom(Table([], map[]), [a], digest, 0);
      a.ToTriple() != b.ToTriple() && |tab.slots| == 1 && AddFrom(tab, [b], digest, 0) == tab
  {
    var a := NewTriple(Some(t.s), Some(t.p), Some(t.o), None, None);
    var b := a.(d := Some(""));
    assert IdText(a.ToTriple()) == IdText(b.ToTriple());
    var tab := AddOne(Table([], map[]), a, digest, 0);
    assert AddFrom(Table([], map[]), [a], digest, 0) == AddFrom(tab, [a], digest, 1) == tab;
    assert AddOne(tab, b, digest, 0) == tab;
    assert AddFrom(tab, [b], digest, 0) == AddFrom(tab, [b], digest, 1);
  }

  /** After adding a, adding the different triple b has no effect: their fields concatenate alike. */
  lemma DifferentTripleIsDropped(digest: Digest)
    ensures var a := NewTriple(Some("ab"), Some("c"), Some("d"), None, None);
      var b := NewTriple(Some("a"), Some("bc"), Some("d"), None, None);
      var tab := AddFrom(Table([], map[]), [a], digest, 0);
      a.ToTriple() != b.ToTriple() && |tab.slots| == 1 && AddFrom(tab, [b], digest, 0) == tab
  {
    var a := NewTriple(Some("ab"), Some("c"), Some("d"), None, None);
    var b := NewTriple(Some("a"), Some("bc"), Some("d"), None, None);
    assert "ab" + "c" == "a" + "bc";
    assert IdText(a.ToTriple()) == IdText(b.ToTriple());
    var tab := AddOne(Table([], map[]), a, digest, 0);
    assert AddFrom(Table([], map[]), [a], digest, 0) == AddFrom(tab, [a], digest, 1) == tab;
    assert AddOne(tab, b, digest, 0) == tab;
    assert AddFrom(tab, [b], digest, 0) == AddFrom(tab, [b], digest, 1);
  }

  /** Number of triples between the given positions of the batch that are already present. */
  function Skipped(tab: Table, batch: seq<NewTriple>, digest: Digest, from: nat, to: nat): nat
    requires from <= to <= |batch| && (forall j | from <= j < to :: batch[j].Complete())
    decreases |batch| - from
  {
    if from == to then 0
    else
      (if IdOf(batch[from], digest) in tab.index then 1 else 0)
      + Skipped(AddOne(tab, batch[from], digest, from), batch, digest, from + 1, to)
  }

  /** The table after the triples from position `from` up to `to` of the batch. */
  function AddUpTo(tab: Table, batch: seq<NewTriple>, digest: Digest, from: nat, to: nat): Table
    requires from <= to <= |batch| && (forall j | from <= j < to :: batch[j].Complete())
    decreases |batch| - from
  {
    if from == to then tab
    else AddUpTo(AddOne(tab, batch[from], digest, from), batch, digest, from + 1, to)
  }

  lemma {:induction false} AddUpToGrows(tab: Table, batch: seq<NewTriple>, digest: Digest, from: nat, to: nat)
    requires tab.Valid() && from <= to <= |batch| && (forall j | from <= j < to :: batch[j].Complete())
    ensures AddUpTo(tab, batch, digest, from, to).Valid()
    ensures |AddUpTo(tab, batch, digest, from, to).slots|
         == |tab.slots| + (to - from) - Skipped(tab, batch, digest, from, to)
    ensures AddFrom(tab, batch, digest, from) == AddFrom(AddUpTo(tab, batch, digest, from, to), batch, digest, to)
    decreases |batch| - from
  {
    if from < to {
      AddOneInserts(tab, batch[from], digest, from);
      AddUpToGrows(AddOne(tab, batch[from], digest, from), batch, digest, from + 1, to);
    }
  }

  /** The i-th triple of a batch, if it is new, goes to the array position where the earlier ones left
      off, while the index gets i: the two agree exactly if as many triples of the batch were skipped
      before it as the table held at the start. */
  lemma {:induction false} IndexIsPositionIff(tab: Table, batch: seq<NewTriple>, digest: Digest, i: nat)
    requires tab.Valid() && i < |batch| && forall j | 0 <= j <= i :: batch[j].Complete()
    requires IdOf(batch[i], digest) !in AddUpTo(tab, batch, digest, 0, i).index
    ensures IsIndexed(AddFrom(tab, batch, digest, 0), IdOf(batch[i], digest))
       <==> |tab.slots| == Skipped(tab, batch, digest, 0, i)
  {
    AddUpToGrows(tab, batch, digest, 0, i);
    var before, id := AddUpTo(tab, batch, digest, 0, i), IdOf(batch[i], digest);
    NewEntryStays(before, batch, digest, i);
    var end := AddFrom(before, batch, digest, i);
    DistinctIff(end.slots);
    if i < |end.slots| && end.slots[i].id == Some(id) {
      assert i == |before.slots|;
    }
  }

  /** A new entry keeps its position and its index value. */
  lemma {:induction false} NewEntryStays(tab: Table, batch: seq<NewTriple>, digest: Digest, i: nat)
    requires tab.Valid() && i < |batch| && batch[i].Complete() && IdOf(batch[i], digest) !in tab.index
    ensures var end, id := AddFrom(tab, batch, digest, i), IdOf(batch[i], digest);
      && end.Valid() && id in end.index && end.index[id] == i
      && |tab.slots| < |end.slots| && end.slots[|tab.slots|].id == Some(id)
  {
    AddOneInserts(tab, batch[i], digest, i);
    AddFromKeeps(AddOne(tab, batch[i], digest, i), batch, digest, i + 1);
  }

  /** The index leads from the id to the entry with that id. */
  ghost predicate IsIndexed(tab: Table, id: string) {
    id in tab.index && tab.index[id] < |tab.slots| && tab.slots[tab.index[id]].id == Some(id)
  }

  // ----- Removing -----

  /** Removes entry n: lazily while iterators run, by moving the last entry otherwise. */
  function RemoveAt(slots: seq<Slot>, n: nat, lazy: bool): (r: seq<Slot>)
    requires n < |slots|
    ensures |r| == if lazy then |slots| else |slots| - 1
  {
    if lazy then slots[n := slots[n].(id := None)]
    else
      var last := |slots| - 1;
      slots[n := slots[last]][..last]
  }

  /** Removes the matching entries below position i, scanning downwards. */
  function RemoveBelow(slots: seq<Slot>, i: nat, pat: Pattern, lazy: bool): seq<Slot>
    requires i <= |slots|
    decreases i
  {
    if i == 0 then slots
    else if slots[i - 1].Live() && Matches(pat, slots[i - 1].t) then
      RemoveBelow(RemoveAt(slots, i - 1, lazy), i - 1, pat, lazy)
    else RemoveBelow(slots, i - 1, pat, lazy)
  }

  /** Number of live entries below position i that match. */
  function CountBelow(slots: seq<Slot>, i: nat, pat: Pattern): nat
    requires i <= |slots|
    decreases i
  {
    if i == 0 then 0
    else CountBelow(slots, i - 1, pat) + if slots[i - 1].Live() && Matches(pat, slots[i - 1].t) then 1 else 0
  }

  lemma RemoveAtKeeps(slots: seq<Slot>, n: nat, lazy: bool)
    requires Distinct(slots) && n < |slots| && slots[n].Live()
    ensures Distinct(RemoveAt(slots, n, lazy))
    ensures forall x: Slot | x.Live() :: x in RemoveAt(slots, n, lazy) <==> x in slots && x.id != slots[n].id
    ensures !lazy && AllLive(slots) ==> AllLive(RemoveAt(slots, n, lazy))
    ensures RemoveAt(slots, n, lazy)[..n] == slots[..n]
  {
    var r, last := RemoveAt(slots, n, lazy), |slots| - 1;
    DistinctIff(slots);
    DistinctIff(r);
    forall x: Slot | x.Live() ensures x in r <==> x in slots && x.id != slots[n].id {
      if x in slots && x.id != slots[n].id {
        var i :| 0 <= i < |slots| && slots[i] == x;
        assert if lazy || i < last then r[i] == x else r[n] == x;
      }
      if x in r {
        var i :| 0 <= i < |r| && r[i] == x;
        assert x == if !lazy && i == n then slots[last] else slots[i];
      }
    }
  }

  lemma {:induction false} CountSame(a: seq<Slot>, b: seq<Slot>, i: nat, pat: Pattern)
    requires i <= |a| && i <= |b| && a[..i] == b[..i]
    ensures CountBelow(a, i, pat) == CountBelow(b, i, pat)
    decreases i
  {
    if i > 0 {
      assert a[i - 1] == a[..i][i - 1] && b[i - 1] == b[..i][i - 1];
      assert a[..i - 1] == a[..i][..i - 1] && b[..i - 1] == b[..i][..i - 1];
      CountSame(a, b, i - 1, pat);
    }
  }

  /** The entries at i and above do not match. */
  ghost predicate CleanAbove(slots: seq<Slot>, i: nat, pat: Pattern) {
    forall j | i <= j < |slots| && slots[j].Live() :: !Matches(pat, slots[j].t)
  }

  /** The downward scan removes exactly the matching entries. */
  /** The live entries of r are those of slots that do not match. */
  ghost predicate Filters(r: seq<Slot>, slots: seq<Slot>, pat: Pattern) {
    forall x: Slot {:trigger IsKept(x, r, slots, pat)} :: x.Live() ==> IsKept(x, r, slots, pat)
  }

  ghost predicate IsKept(x: Slot, r: seq<Slot>, slots: seq<Slot>, pat: Pattern) {
    x in r <==> x in slots && !Matches(pat, x.t)
  }

  lemma NothingToFilter(slots: seq<Slot>, pat: Pattern)
    requires CleanAbove(slots, 0, pat)
    ensures Filters(slots, slots, pat)
  {}

  lemma FiltersRest(r: seq<Slot>, slots: seq<Slot>, n: nat, pat: Pattern, lazy: bool)
    requires Distinct(slots) && n < |slots| && slots[n].Live() && Matches(pat, slots[n].t)
    requires Filters(r, RemoveAt(slots, n, lazy), pat)
    ensures Filters(r, slots, pat)
  {
    RemoveAtKeeps(slots, n, lazy);
    forall x: Slot | x.Live() ensures IsKept(x, r, slots, pat) {
      assert IsKept(x, r, RemoveAt(slots, n, lazy), pat);
    }
  }

  lemma {:induction false} RemoveBelowRemoves(slots: seq<Slot>, i: nat, pat: Pattern, lazy: bool)
    requires Distinct(slots) && i <= |slots| && CleanAbove(slots, i, pat)
    ensures Distinct(RemoveBelow(slots, i, pat, lazy)) && Filters(RemoveBelow(slots, i, pat, lazy), slots, pat)
    ensures |RemoveBelow(slots, i, pat, lazy)| == |slots| - if lazy then 0 else CountBelow(slots, i, pat)
    ensures !lazy && AllLive(slots) ==> AllLive(RemoveBelow(slots, i, pat, lazy))
    decreases i
  {
    if i == 0 {
      NothingToFilter(slots, pat);
    } else if slots[i - 1].Live() && Matches(pat, slots[i - 1].t) {
      var next := RemoveAt(slots, i - 1, lazy);
      RemoveAtKeeps(slots, i - 1, lazy);
      assert CleanAbove(next, i - 1, pat);
      RemoveBelowRemoves(next, i - 1, pat, lazy);
      FiltersRest(RemoveBelow(next, i - 1, pat, lazy), slots, i - 1, pat, lazy);
      CountSame(slots, next, i - 1, pat);
    } else {
      RemoveBelowRemoves(slots, i - 1, pat, lazy);
    }
  }

  /** Lazy removal leaves every entry at its place and only takes the ids of the matching ones. */
  lemma {:induction false} LazyRemovalInPlace(slots: seq<Slot>, i: nat, pat: Pattern)
    requires i <= |slots|
    ensures var r := RemoveBelow(slots, i, pat, true);
      && |r| == |slots|
      && forall j | 0 <= j < |slots| ::
        r[j] == if j < i && slots[j].Live() && Matches(pat, slots[j].t) then slots[j].(id := None) else slots[j]
    decreases i
  {
    if i > 0 {
      if slots[i - 1].Live() && Matches(pat, slots[i - 1].t) {
        LazyRemovalInPlace(RemoveAt(slots, i - 1, true), i - 1, pat);
      } else {
        LazyRemovalInPlace(slots, i - 1, pat);
      }
    }
  }

  function WithoutMatches(m: map<string, Triple>, pat: Pattern): map<string, Triple> {
    map id | id in m && !Matches(pat, m[id]) :: m[id]
  }

  lemma ContentsWithoutMatches(m: map<string, Triple>, k: map<string, Triple>, slots: seq<Slot>, r: seq<Slot>,
                               pat: Pattern)
    requires Filters(r, slots, pat)
    requires forall i, t :: i in m && m[i] == t <==> Slot(Some(i), t) in slots
    requires forall i, t :: i in k && k[i] == t <==> Slot(Some(i), t) in r
    ensures k == WithoutMatches(m, pat)
  {
    forall i | i in m && !Matches(pat, m[i]) ensures i in k && k[i] == m[i] {
      assert IsKept(Slot(Some(i), m[i]), r, slots, pat);
    }
    forall i | i in k ensures i in m && m[i] == k[i] && !Matches(pat, m[i]) {
      assert IsKept(Slot(Some(i), k[i]), r, slots, pat);
    }
  }

  /** Pattern removal deletes exactly the matching triples from the map. */
  lemma RemovalRefinesMap(slots: seq<Slot>, pat: Pattern, lazy: bool)
    requires Distinct(slots)
    ensures Distinct(RemoveBelow(slots, |slots|, pat, lazy))
    ensures Contents(RemoveBelow(slots, |slots|, pat, lazy)) == WithoutMatches(Contents(slots), pat)
  {
    var r := RemoveBelow(slots, |slots|, pat, lazy);
    RemoveBelowRemoves(slots, |slots|, pat, lazy);
    ContentsAre(slots);
    ContentsAre(r);
    ContentsWithoutMatches(Contents(slots), Contents(r), slots, r, pat);
  }

  /** After a removal exactly those triples are left that differ from the pattern in a given field. */
  lemma RemovalKeepsOthers(slots: seq<Slot>, pat: Pattern, lazy: bool, id: string, t: Triple)
    requires Distinct(slots)
    ensures var m, r := Contents(slots), Contents(RemoveBelow(slots, |slots|, pat, lazy));
      (id in r && r[id] == t) <==>
        && id in m && m[id] == t
        && ((pat.s.Some? && t.s != pat.s.value) || (pat.p.Some? && t.p != pat.p.value)
            || (pat.o.Some? && t.o != pat.o.value) || (pat.d.Some? && t.d != Some(pat.d.value)))
  {
    RemovalRefinesMap(slots, pat, lazy);
    MatchesUnlessDiffers(pat, t);
  }

  /** The triples that differ from the pattern. */
  function Rest(m: map<string, Triple>, pat: Pattern): map<string, Triple> {
    map id | id in m && Differs(pat, m[id]) :: m[id]
  }

  lemma RemovalKeepsRest(slots: seq<Slot>, pat: Pattern, lazy: bool)
    requires Distinct(slots)
    ensures Contents(RemoveBelow(slots, |slots|, pat, lazy)) == Rest(Contents(slots), pat)
  {
    var m := Contents(slots);
    RemovalRefinesMap(slots, pat, lazy);
    forall id | id in m ensures Matches(pat, m[id]) <==> !Differs(pat, m[id]) { MatchesUnlessDiffers(pat, m[id]); }
  }

  /** Index after a pattern removal: the keys of the remaining entries. */
  function PruneIndex(tab: Table, pat: Pattern): map<string, nat> {
    map id | id in tab.index && id in WithoutMatches(Contents(tab.slots), pat) :: tab.index[id]
  }

  function RemoveMatching(tab: Table, pat: Pattern, lazy: bool): Table {
    Table(RemoveBelow(tab.slots, |tab.slots|, pat, lazy), PruneIndex(tab, pat))
  }

  lemma RemoveMatchingKeeps(tab: Table, pat: Pattern, lazy: bool)
    requires tab.Valid()
    ensures RemoveMatching(tab, pat, lazy).Valid()
    ensures Contents(RemoveMatching(tab, pat, lazy).slots) == WithoutMatches(Contents(tab.slots), pat)
    ensures !lazy && AllLive(tab.slots) ==> AllLive(RemoveMatching(tab, pat, lazy).slots)
  {
    RemovalRefinesMap(tab.slots, pat, lazy);
    RemoveBelowRemoves(tab.slots, |tab.slots|, pat, lazy);
    assert PruneIndex(tab, pat).Keys == WithoutMatches(Contents(tab.slots), pat).Keys;
  }

  /** A table with the remaining entries whose index only lost keys is the specified one. */
  lemma PrunedTable(tab: Table, after: Table, pat: Pattern, lazy: bool)
    requires tab.Valid() && after.Valid() && after.slots == RemoveBelow(tab.slots, |tab.slots|, pat, lazy)
    requires forall id | id in after.index :: id in tab.index && after.index[id] == tab.index[id]
    ensures after == RemoveMatching(tab, pat, lazy)
  {
    RemovalRefinesMap(tab.slots, pat, lazy);
    var pruned := PruneIndex(tab, pat);
    assert after.index.Keys == pruned.Keys;
    assert after.index == pruned;
  }

  /** Removes entry n and its index key. */
  function RemoveEntry(tab: Table, n: nat, lazy: bool): Table
    requires n < |tab.slots| && tab.slots[n].Live()
  {
    Table(RemoveAt(tab.slots, n, lazy), tab.index - {tab.slots[n].id.value})
  }

  /** Removal of the entry that the index names; nothing is removed if that position is out of range or
      already removed. */
  function RemoveById(tab: Table, id: string, lazy: bool): Table {
    if id in tab.index && tab.index[id] < |tab.slots| && tab.slots[tab.index[id]].Live() then
      RemoveEntry(tab, tab.index[id], lazy)
    else tab
  }

  lemma RemoveEntryKeeps(tab: Table, n: nat, lazy: bool)
    requires tab.Valid() && n < |tab.slots| && tab.slots[n].Live()
    ensures RemoveEntry(tab, n, lazy).Valid()
    ensures LiveCount(RemoveEntry(tab, n, lazy).slots) == LiveCount(tab.slots) - 1
    ensures !lazy && AllLive(tab.slots) ==> AllLive(RemoveEntry(tab, n, lazy).slots)
  {
    RemovedContents(tab.slots, n, lazy);
    RemoveAtKeeps(tab.slots, n, lazy);
    assert (Contents(tab.slots) - {tab.slots[n].id.value}).Keys == tab.index.Keys - {tab.slots[n].id.value};
  }

  lemma RemovedContents(slots: seq<Slot>, n: nat, lazy: bool)
    requires Distinct(slots) && n < |slots| && slots[n].Live()
    ensures Contents(RemoveAt(slots, n, lazy)) == Contents(slots) - {slots[n].id.value}
    ensures slots[n].id.value in Contents(slots) && Distinct(RemoveAt(slots, n, lazy))
    ensures LiveCount(RemoveAt(slots, n, lazy)) == LiveCount(slots) - 1
  {
    var r, id, m := RemoveAt(slots, n, lazy), slots[n].id.value, Contents(slots);
    RemoveAtKeeps(slots, n, lazy);
    ContentsAre(slots);
    ContentsAre(r);
    assert Slot(Some(id), slots[n].t) in slots;
    ContentsWithout(m, Contents(r), slots, r, id);
    assert (m - {id}).Keys == m.Keys - {id};
  }

  lemma ContentsWithout(m: map<string, Triple>, k: map<string, Triple>, slots: seq<Slot>, r: seq<Slot>, id: string)
    requires forall x: Slot | x.Live() :: x in r <==> x in slots && x.id != Some(id)
    requires forall i, t :: i in m && m[i] == t <==> Slot(Some(i), t) in slots
    requires forall i, t :: i in k && k[i] == t <==> Slot(Some(i), t) in r
    ensures k == m - {id}
  {
    forall i | i in m && i != id ensures i in k && k[i] == m[i] {
      assert Slot(Some(i), m[i]) in r;
    }
    forall i | i in k ensures i in m && i != id {
      assert Slot(Some(i), k[i]) in slots;
    }
  }

  /** Removal by id removes the triple with that id, and nothing else, exactly when the index leads to it. */
  lemma RemoveByIdIff(tab: Table, id: string, lazy: bool)
    requires tab.Valid() && id in tab.index
    ensures RemoveById(tab, id, lazy).Valid()
    ensures Contents(RemoveById(tab, id, lazy).slots) == Contents(tab.slots) - {id} <==> IsIndexed(tab, id)
  {
    var n, m := tab.index[id], Contents(tab.slots);
    if n < |tab.slots| && tab.slots[n].Live() {
      RemovedContents(tab.slots, n, lazy);
      RemoveEntryKeeps(tab, n, lazy);
      assert id in m && (tab.slots[n].id.value != id ==> id in m - {tab.slots[n].id.value});
    }
  }

  /** Of two triples that are added one after the other, removing the second by its id removes the first. */
  lemma RemoveByIdExample(a: Triple, b: Triple)
    ensures var digest := (x: string) => x;
      var na, nb := NewTriple(Some(a.s), Some(a.p), Some(a.o), a.d, Some("a")),
                    NewTriple(Some(b.s), Some(b.p), Some(b.o), b.d, Some("b"));
      var tab := AddFrom(AddFrom(Table([], map[]), [na], digest, 0), [nb], digest, 0);
      && tab.slots == [Slot(Some("a"), a), Slot(Some("b"), b)]
      && RemoveById(tab, "b", false).slots == [Slot(Some("b"), b)]
  {
    var digest := (x: string) => x;
    var na := NewTriple(Some(a.s), Some(a.p), Some(a.o), a.d, Some("a"));
    var nb := NewTriple(Some(b.s), Some(b.p), Some(b.o), b.d, Some("b"));
    var one := AddOne(Table([], map[]), na, digest, 0);
    assert AddFrom(Table([], map[]), [na], digest, 0) == AddFrom(one, [na], digest, 1) == one;
    assert AddFrom(one, [nb], digest, 0) == AddFrom(AddOne(one, nb, digest, 0), [nb], digest, 1);
  }

  // ----- Compaction -----

  /** Drops the removals pending at the end. */
  function TrimTail(slots: seq<Slot>): seq<Slot> {
    if slots != [] && !slots[|slots| - 1].Live() then TrimTail(slots[..|slots| - 1]) else slots
  }

  /** Fills the holes below position i, scanning downwards, with entries from the end. */
  function FillHoles(slots: seq<Slot>, i: nat): seq<Slot>
    requires i <= |slots|
    decreases i
  {
    if i == 0 then slots
    else if slots[i - 1].Live() then FillHoles(slots, i - 1)
    else FillHoles(RemoveAt(slots, i - 1, false), i - 1)
  }

  function Compact(slots: seq<Slot>): seq<Slot> {
    var trimmed := TrimTail(slots);
    FillHoles(trimmed, |trimmed|)
  }

  /** Filling a hole with the last entry keeps every live entry. */
  lemma FillKeeps(slots: seq<Slot>, n: nat)
    requires Distinct(slots) && n < |slots| && !slots[n].Live()
    ensures Distinct(RemoveAt(slots, n, false))
    ensures forall x: Slot | x.Live() :: x in RemoveAt(slots, n, false) <==> x in slots
  {
    var r, last := RemoveAt(slots, n, false), |slots| - 1;
    DistinctIff(slots);
    DistinctIff(r);
    forall x: Slot | x.Live() ensures x in r <==> x in slots {
      if x in slots {
        var i :| 0 <= i < |slots| && slots[i] == x;
        assert if i < last then r[i] == x else r[n] == x;
      }
      if x in r {
        var i :| 0 <= i < |r| && r[i] == x;
        assert x == if i == n then slots[last] else slots[i];
      }
    }
  }

  lemma {:induction false} TrimTailKeeps(slots: seq<Slot>)
    ensures TrimTail(slots) <= slots
    ensures forall x: Slot | x.Live() :: x in TrimTail(slots) <==> x in slots
    ensures TrimTail(slots) != [] ==> TrimTail(slots)[|TrimTail(slots)| - 1].Live()
  {
    if slots != [] && !slots[|slots| - 1].Live() {
      TrimTailKeeps(slots[..|slots| - 1]);
      assert slots == slots[..|slots| - 1] + [slots[|slots| - 1]];
    }
  }

  /** The loop that fills the holes always has a live entry at the end to fill them with. */
  lemma {:induction false} FillHolesKeeps(slots: seq<Slot>, i: nat)
    requires i <= |slots| && AllLive(slots[i..]) && (slots != [] ==> slots[|slots| - 1].Live()) && Distinct(slots)
    ensures AllLive(FillHoles(slots, i)) && Distinct(FillHoles(slots, i))
    ensures forall x: Slot | x.Live() :: x in FillHoles(slots, i) <==> x in slots
    decreases i
  {
    if i == 0 {
      assert slots[0..] == slots;
    } else if slots[i - 1].Live() {
      assert slots[i - 1..] == [slots[i - 1]] + slots[i..];
      FillHolesKeeps(slots, i - 1);
    } else {
      var last := |slots| - 1;
      assert i - 1 < last;
      FillKeeps(slots, i - 1);
      var next := RemoveAt(slots, i - 1, false);
      assert forall j | i <= j < |slots| :: slots[j] == slots[i..][j - i];
      assert AllLive(next[i - 1..]);
      FillHolesKeeps(next, i - 1);
    }
  }

  lemma TrimTailIsDistinct(slots: seq<Slot>)
    requires Distinct(slots)
    ensures Distinct(TrimTail(slots))
  {
    TrimTailKeeps(slots);
    PrefixIsDistinct(slots, |TrimTail(slots)|);
    assert TrimTail(slots) == slots[..|TrimTail(slots)|];
  }

  /** Compaction leaves no pending removals and keeps the map. */
  lemma CompactKeeps(slots: seq<Slot>)
    requires Distinct(slots)
    ensures AllLive(Compact(slots)) && Distinct(Compact(slots)) && Contents(Compact(slots)) == Contents(slots)
    ensures |Compact(slots)| == LiveCount(slots)
  {
    var trimmed := TrimTail(slots);
    TrimTailKeeps(slots);
    TrimTailIsDistinct(slots);
    FillHolesKeeps(trimmed, |trimmed|);
    SameContents(Compact(slots), slots);
    ContentsAre(slots);
    ContentsAre(Compact(slots));
  }

  // ----- Searching -----

  /** The two searches: triplestore_find() and triplestore_find_first(). */
  predicate Hits(slot: Slot, pat: Pattern, first: bool) {
    slot.Live() && if first then Matches(pat, slot.t) else MatchesFind(pat, slot.t)
  }

  /** Position of the first hit at `pos` or later; at least the end of the table if there is none. */
  function Search(slots: seq<Slot>, pos: nat, pat: Pattern, first: bool): (r: nat)
    ensures pos <= r && (r < |slots| ==> Hits(slots[r], pat, first))
    ensures forall j | pos <= j < r && j < |slots| :: !Hits(slots[j], pat, first)
    ensures r <= |slots| || r == pos
    decreases |slots| - pos
  {
    if pos >= |slots| then pos
    else if Hits(slots[pos], pat, first) then pos
    else Search(slots, pos + 1, pat, first)
  }

  /** The searches find the first live entry at pos or later that agrees with the pattern in all given fields; for
      triplestore_find() an empty datatype also stands for a missing one. */
  lemma SearchIsFirst(slots: seq<Slot>, pos: nat, pat: Pattern, first: bool)
    ensures var i := Search(slots, pos, pat, first);
      && (i < |slots| ==> var t := slots[i].t;
            && i >= pos && slots[i].Live()
            && (pat.s.Some? ==> t.s == pat.s.value) && (pat.p.Some? ==> t.p == pat.p.value)
            && (pat.o.Some? ==> t.o == pat.o.value)
            && (pat.d.Some? ==> t.d == Some(pat.d.value) || (!first && pat.d.value == "" && t.d.None?)))
      && forall j | pos <= j < i && j < |slots| && slots[j].Live() ::
        var t := slots[j].t;
        || (pat.s.Some? && t.s != pat.s.value) || (pat.p.Some? && t.p != pat.p.value)
        || (pat.o.Some? && t.o != pat.o.value)
        || (pat.d.Some? && t.d != Some(pat.d.value) && (first || pat.d.value != "" || t.d.Some?))
  {
    var i := Search(slots, pos, pat, first);
    forall j | pos <= j < i && j < |slots| && slots[j].Live()
      ensures !(if first then Matches(pat, slots[j].t) else MatchesFind(pat, slots[j].t))
    {
      assert !Hits(slots[j], pat, first);
    }
  }

  /** A fresh triplestore_find() and triplestore_find_first() agree unless the datatype is empty and the
      first hit is a non-literal object. */
  lemma FirstHitsAgreeIff(slots: seq<Slot>, pat: Pattern)
    ensures var f, g := Search(slots, 0, pat, false), Search(slots, 0, pat, true);
      f == g <==> f >= |slots| || pat.d != Some("") || slots[f].t.d.Some?
  {
    assert forall x: Slot :: Hits(x, pat, true) ==> Hits(x, pat, false);
  }
}
