/** The array of relations of a collection and its triplestore (`dlite-collection.c`): saving, loading and
    hashing. */
module CollectionArrays {
  import opened Options
  import opened Triples
  import opened TripleStores
  import opened Collections
  import CollectionHash
  import opened CollectionMembers

  class Collection {
    const store: TripleStore
    const frozen: bool
    /** What is hashed in front of the relations: the reference to a parent and the metadata URI. */
    const prefix: string
    var relations: array<NewTriple>
    var nrelations: nat

    ghost predicate Valid()
      reads this, store, store.triples
    {
      store.Valid() && !store.freed && relations.Length == nrelations
    }

    constructor (store: TripleStore, frozen: bool, prefix: string)
      requires store.Valid() && !store.freed
      ensures Valid() && this.store == store && this.frozen == frozen && this.prefix == prefix && fresh(relations)
    {
      this.store, this.frozen, this.prefix := store, frozen, prefix;
      relations := new NewTriple[0];
      nrelations := 0;
    }

    /** dlite_instance_sync_to_dimension_sizes(): the dimension gets the size of the store, and the array is
        reallocated for it; false for an immutable collection that would have to change. */
    method SyncDimension() returns (ok: bool)
      requires Valid()
      modifies this`relations, this`nrelations
      ensures Valid() && ok == (!frozen || old(nrelations) == store.length)
      ensures if ok then nrelations == store.length else nrelations == old(nrelations) && relations == old(relations)
      ensures forall i | 0 <= i < nrelations :: relations[i] == if i < old(nrelations) then old(relations[i]) else BLANK
      ensures relations == old(relations) || fresh(relations)
    {
      if store.length != nrelations {
        if frozen { return false; }
        var n := store.length;
        var size := nrelations;
        var a := relations;
        relations := new NewTriple[n](i requires 0 <= i reads a => if i < a.Length then a[i] else BLANK);
        nrelations := n;
      }
      return true;
    }

    /** dlite_collection_saveprop() for the only property: the array gets exactly the triples of the store.
        It asserts that an immutable collection has not got another number of triples. */
    method SaveProp() returns (status: int)
      requires Valid() && (frozen ==> nrelations == store.length)
      modifies this`relations, this`nrelations, relations, store, store.triples
      ensures Valid() && status == 0
      ensures store.Used() == old(store.Used()) && store.index == old(store.index) && store.niter == old(store.niter)
      ensures nrelations == store.length && relations[..] == Records(LiveSlots(store.Used()))
    {
      var ok := SyncDimension();
      ghost var slots := store.Used();
      LiveSlotsCount(slots);
      CopyAll(slots);
      return 0;
    }

    method CopyAll(ghost slots: seq<Slot>)
      requires Valid() && Stores(slots) && relations.Length == |LiveSlots(slots)|
      modifies relations, store, store.triples
      ensures Valid() && Stores(slots) && store.index == old(store.index) && store.niter == old(store.niter)
      ensures store.length == old(store.length) && relations[..] == Records(LiveSlots(slots))
    {
      var it := Open(slots);
      ghost var live := LiveSlots(slots);
      var n := Fill(it, slots, live);
      assert relations[..] == Records(live);
      Release(it, slots);
    }

    /** The used part of the store. */
    ghost predicate Stores(slots: seq<Slot>)
      reads this, store, store.triples
    {
      store.Valid() && store.Used() == slots
    }

    /** Copies the triples that the iterator gives to the array. */
    method Fill(it: TripleState, ghost slots: seq<Slot>, ghost live: seq<Slot>) returns (j: nat)
      requires it.ts == store && it.pos == 0 && Stores(slots) && live == LiveSlots(slots) && relations.Length == |live|
      modifies it`pos, relations
      ensures j == |live| && Copied(relations[..], live, |live|)
    {
      assert slots[0..] == slots && live[0..] == live;
      j := 0;
      var t := NextSlot(it, slots);
      ghost var rest := LiveSlots(slots[it.pos..]);
      while t.Some?
        invariant Stores(slots) && it.pos <= |slots| && rest == LiveSlots(slots[it.pos..])
        invariant Ahead(live, j, t, rest) && Copied(relations[..], live, j)
        decreases |live| - j
      {
        ghost var before, last := relations[..], rest;
        var x := t.value;
        t := CopyAndAdvance(it, j, x, slots);
        rest := LiveSlots(slots[it.pos..]);
        AheadStep(live, j, x, last, t, rest);
        CopiedStep(before, live, j);
        j := j + 1;
      }
    }

    method CopyAndAdvance(it: TripleState, j: nat, x: Slot, ghost slots: seq<Slot>) returns (t: Option<Slot>)
      requires it.ts == store && Stores(slots) && it.pos <= |slots| && j < relations.Length
      modifies it`pos, relations
      ensures Stores(slots) && it.pos <= |slots|
      ensures relations[..] == old(relations[..])[j := Record(x)]
      ensures LiveSlots(slots[old(it.pos)..]) == if t.Some? then [t.value] + LiveSlots(slots[it.pos..]) else []
    {
      CopyRelation(j, x);
      assert Stores(slots);
      t := NextSlot(it, slots);
    }

    method CopyRelation(j: nat, x: Slot)
      requires j < relations.Length
      modifies relations
      ensures relations[..] == old(relations[..])[j := Record(x)]
    {
      relations[j] := Record(x);
    }

    /** triplestore_next(), with the id of the triple. */
    method NextSlot(it: TripleState, ghost slots: seq<Slot>) returns (r: Option<Slot>)
      requires it.ts == store && Stores(slots) && it.pos <= |slots|
      modifies it`pos
      ensures Stores(slots) && it.pos <= |slots|
      ensures LiveSlots(slots[old(it.pos)..]) == if r.Some? then [r.value] + LiveSlots(slots[it.pos..]) else []
    {
      NextLive(slots, it.pos);
      ghost var i := Search(slots, it.pos, ANY, false);
      var t := it.Next();
      if t.None? { return None; }
      assert it.pos == i + 1 && store.Used()[i] == slots[i];
      return Some(store.triples[it.pos - 1]);
    }

    /** dlite_collection_loadprop() for the only property: the store is filled from the array, and the
        instances that the collection refers to are looked up; a non-zero status tells that a relation is
        incomplete or one of these is not among the known ones. */
    method LoadProp(known: set<string>) returns (status: int)
      requires Valid() && forall x | x in relations[..] :: x.Defined()
      modifies store, store.triples
      ensures store.Valid() && !store.freed && relations.Length == nrelations
      ensures store.Table() == AddFrom(Triples.Table([], map[]), relations[..], store.digest, 0)
      ensures store.niter == old(store.niter)
      ensures status == 0 <==>
        (forall i | 0 <= i < relations.Length :: relations[i].Complete()) && RefersTo(store.Used(), known)
    {
      var ok := Refill();
      if !ok { return -1; }
      status := LookUpAll(known, store.Used());
    }

    method LookUpAll(known: set<string>, ghost slots: seq<Slot>) returns (status: int)
      requires Valid() && Stores(slots)
      modifies store, store.triples
      ensures Valid() && Stores(slots) && store.niter == old(store.niter) && store.index == old(store.index)
      ensures status == 0 <==> RefersTo(slots, known)
    {
      var it := Open(slots);
      status := LookUp(it, slots, known);
      Release(it, slots);
    }

    method Refill() returns (ok: bool)
      requires Valid() && forall x | x in relations[..] :: x.Defined()
      modifies store, store.triples
      ensures Valid() && store.niter == old(store.niter) && fresh(store.triples)
      ensures store.Table() == AddFrom(Triples.Table([], map[]), relations[..], store.digest, 0)
      ensures ok <==> forall i | 0 <= i < relations.Length :: relations[i].Complete()
    {
      ghost var batch := relations[..];
      store.Clear();
      assert relations[..] == batch;
      ok := store.AddTriples(relations[..]);
      assert forall i | 0 <= i < relations.Length :: relations[i] == batch[i];
    }

    /** Looks up the instances in the relations of the store. */
    method LookUp(it: TripleState, ghost slots: seq<Slot>, known: set<string>) returns (status: int)
      requires it.ts == store && it.pos == 0 && Stores(slots)
      modifies it`pos
      ensures Stores(slots) && (status == 0 <==> RefersTo(slots, known))
    {
      status := 0;
      var t := NextReference(it, slots, known);
      ghost var checked := if t.Some? then it.pos - 1 else it.pos;
      while t.Some?
        invariant Stores(slots) && checked == (if t.Some? then it.pos - 1 else it.pos)
        invariant 0 <= checked && it.pos <= |slots|
        invariant t.Some? ==> slots[checked].t == t.value && Hits(slots[checked], UUIDS, false)
        invariant t.None? ==> it.pos == |slots|
        invariant status == 0 <==> RefersTo(slots[..checked], known)
        decreases |slots| - it.pos, if t.Some? then 1 else 0
      {
        if t.value.o !in known { status := -1; }
        OneReference(slots, checked, known);
        t := NextReference(it, slots, known);
        checked := if t.Some? then it.pos - 1 else it.pos;
      }
      assert slots[..|slots|] == slots;
    }

    method NextReference(it: TripleState, ghost slots: seq<Slot>, ghost known: set<string>) returns (t: Option<Triple>)
      requires it.ts == store && Stores(slots) && it.pos <= |slots|
      modifies it`pos
      ensures Stores(slots) && old(it.pos) <= it.pos <= |slots|
      ensures t.Some? ==>
        old(it.pos) < it.pos && slots[it.pos - 1].t == t.value && Hits(slots[it.pos - 1], UUIDS, false)
      ensures t.None? ==> it.pos == |slots|
      ensures RefersTo(slots[..old(it.pos)], known) == RefersTo(slots[..if t.Some? then it.pos - 1 else it.pos], known)
    {
      ghost var from := it.pos;
      t := it.Find(UUIDS);
      NoneBetween(slots, from, if t.Some? then it.pos - 1 else it.pos, known);
    }

    /** dlite_collection_gethash(): the digest of the text for the relations, None on error. The triples are
        collected and sorted. */
    method GetHash(hash: CollectionHash.InstanceHash, digest: string -> string) returns (r: Option<string>)
      requires Valid()
      modifies store, store.triples
      ensures Valid() && store.Used() == old(store.Used()) && store.index == old(store.index)
        && store.niter == old(store.niter)
      ensures var text := StoreText(store.Used(), hash);
        r == if text.Some? then Some(digest(prefix + text.value)) else None
    {
      var text := GetText(hash, store.Used());
      return if text.Some? then Some(digest(prefix + text.value)) else None;
    }

    method GetText(hash: CollectionHash.InstanceHash, ghost slots: seq<Slot>) returns (text: Option<string>)
      requires Valid() && Stores(slots)
      modifies store, store.triples
      ensures Valid() && Stores(slots) && store.index == old(store.index) && store.niter == old(store.niter)
      ensures text == StoreText(slots, hash)
    {
      var it := Open(slots);
      text := CollectAndHash(it, slots, hash);
      Release(it, slots);
    }

    method CollectAndHash(it: TripleState, ghost slots: seq<Slot>, hash: CollectionHash.InstanceHash)
      returns (text: Option<string>)
      requires it.ts == store && it.pos == 0 && Stores(slots)
      modifies it`pos
      ensures Stores(slots) && text == StoreText(slots, hash)
    {
      ghost var live := LiveSlots(slots);
      var ts := Collect(it, slots, live);
      assert ts == TriplesOf(live);
      text := HashSorted(ts, CollectionHash.Sort(ts), slots, hash);
    }

    /** The triples that the iterator gives. */
    method Collect(it: TripleState, ghost slots: seq<Slot>, ghost live: seq<Slot>) returns (ts: seq<Triple>)
      requires it.ts == store && it.pos == 0 && Stores(slots) && live == LiveSlots(slots)
      modifies it`pos
      ensures Stores(slots) && |ts| == |live| && Gathered(ts, live)
    {
      assert slots[0..] == slots && live[0..] == live;
      ts := [];
      var t := NextSlot(it, slots);
      ghost var rest := LiveSlots(slots[it.pos..]);
      while t.Some?
        invariant Stores(slots) && it.pos <= |slots| && rest == LiveSlots(slots[it.pos..])
        invariant Ahead(live, |ts|, t, rest) && Gathered(ts, live)
        decreases |live| - |ts|
      {
        ghost var last := rest;
        var x := t.value;
        t := NextSlot(it, slots);
        rest := LiveSlots(slots[it.pos..]);
        AheadStep(live, |ts|, x, last, t, rest);
        GatheredStep(ts, live);
        ts := ts + [x.t];
      }
    }

    /** The loop over the sorted triples; hashes are looked up in the store first. */
    method HashSorted(ghost ts: seq<Triple>, sorted: seq<Triple>, ghost slots: seq<Slot>,
                      hash: CollectionHash.InstanceHash)
      returns (text: Option<string>)
      requires Stores(slots) && ts == TriplesOf(LiveSlots(slots))
      ensures text == CollectionHash.TextOf(ts, sorted, hash)
    {
      var acc := "";
      var i: nat := 0;
      while i < |sorted|
        invariant i <= |sorted| && CollectionHash.TextOf(ts, sorted[..i], hash) == Some(acc)
      {
        assert sorted[..i + 1][..i] == sorted[..i];
        var part := HashOne(ts, sorted[i], slots, hash);
        if part.None? {
          TextFails(ts, sorted, i, hash);
          return None;
        }
        acc := acc + part.value;
        i := i + 1;
      }
      assert sorted[..i] == sorted;
      return Some(acc);
    }

    method HashOne(ghost ts: seq<Triple>, t: Triple, ghost slots: seq<Slot>, hash: CollectionHash.InstanceHash)
      returns (part: Option<string>)
      requires Stores(slots) && ts == TriplesOf(LiveSlots(slots))
      ensures part == CollectionHash.Part(ts, t, hash)
    {
      if t.p == CollectionHash.HAS_HASH { return Some(""); }
      var before := "";
      if t.p == CollectionHash.HAS_UUID {
        FindsFirstHash(slots, 0, t.s);
        assert slots[0..] == slots;
        var stored := store.FindFirst(Pattern(Some(t.s), Some(CollectionHash.HAS_HASH), None, None));
        if stored.Some? {
          before := IdText(stored.value);
        } else {
          var h := hash(t.o);
          if h.None? { return None; }
          before := t.s + CollectionHash.HAS_HASH + h.value;
        }
      }
      assert "" + IdText(t) == IdText(t);
      return Some(before + IdText(t));
    }

    /** dlite_collection_add_new(): non-zero if the label is in use. */
    method AddNew(tag: string, uuid: string, meta: string) returns (status: int)
      requires Valid()
      modifies store, store.triples
      ensures store.Valid() && !store.freed && relations.Length == nrelations
      ensures status == 0 <==> Search(old(store.Used()), 0, LabelPattern(tag), true) >= |old(store.Used())|
      ensures status == 0 <==> forall x | x in old(store.Used()) && x.Live() ::
        !(x.t.s == tag && x.t.p == "_is-a" && x.t.o == "Instance")
      ensures store.Table() ==
        if status == 0 then WithMember(old(store.Table()), tag, uuid, meta, store.digest) else old(store.Table())
    {
      LabelIsUsedIff(store.Used(), tag);
      var found := store.FindFirst(LabelPattern(tag));
      if found.Some? { return -1; }
      AddRelation(IsA(tag));
      AddRelation(HasUuid(tag, uuid));
      AddRelation(HasMeta(tag, meta));
      return 0;
    }

    /** dlite_collection_add_relation() */
    method AddRelation(x: NewTriple)
      requires Valid() && x.Complete()
      modifies store, store.triples
      ensures Valid() && store.Table() == AddOne(old(store.Table()), x, store.digest, 0)
      ensures store.triples == old(store.triples) || fresh(store.triples)
    {
      ghost var tab := store.Table();
      AddFromStep(tab, [x], store.digest, 0);
      var ok := store.AddTriples([x]);
    }

    /** dlite_collection_remove(): non-zero if there is no such label. Otherwise the uuid of the instance
        that the collection gives up is found, as the source asserts. */
    method RemoveMember(tag: string) returns (status: int, uuid: string)
      requires Valid()
      requires CountBelow(store.Used(), |store.Used()|, LabelPattern(tag)) > 0 ==>
        var slots := RemoveMatching(store.Table(), LabelPattern(tag), store.niter > 0).slots;
        Search(slots, 0, PredicatePattern(tag, CollectionHash.HAS_UUID), true) < |slots|
      modifies store`length, store`trueLength, store`index, store.triples
      ensures store.Valid()
        && (status == 0 <==> CountBelow(old(store.Used()), |old(store.Used())|, LabelPattern(tag)) > 0)
      ensures store.Table() ==
        if status == 0 then WithoutMember(old(store.Table()), tag, store.niter > 0) else old(store.Table())
      ensures status == 0 ==>
        var slots := RemoveMatching(old(store.Table()), LabelPattern(tag), store.niter > 0).slots;
        var i := Search(slots, 0, PredicatePattern(tag, CollectionHash.HAS_UUID), true);
        i < |slots| && uuid == slots[i].t.o
    {
      ghost var tab := store.Table();
      var n := store.Remove(LabelPattern(tag));
      if n == 0 {
        NothingRemoved(tab, LabelPattern(tag), store.niter > 0);
        return 1, "";
      }
      var r := store.FindFirst(PredicatePattern(tag, CollectionHash.HAS_UUID));
      uuid := r.value.o;
      RemoveDescription(tag);
      return 0, uuid;
    }

    method RemoveDescription(tag: string)
      requires Valid()
      modifies store`length, store`trueLength, store`index, store.triples
      ensures Valid() && store.Table() == WithoutDescription(old(store.Table()), tag, store.niter > 0)
    {
      var n := store.Remove(PredicatePattern(tag, CollectionHash.HAS_UUID));
      n := store.Remove(PredicatePattern(tag, HAS_META));
      n := store.Remove(PredicatePattern(tag, HAS_DIMMAP));
    }

    /** A new iterator. */
    method Open(ghost slots: seq<Slot>) returns (it: TripleState)
      requires Valid() && Stores(slots)
      modifies store`niter
      ensures fresh(it) && it.ts == store && it.pos == 0 && Stores(slots) && store.niter == old(store.niter) + 1
      ensures store.niter == 1 ==> AllLive(slots)
    {
      if store.niter == 0 { store.NoPendingRemovals(); }
      it := new TripleState(store);
    }

    /** Releases the iterator; the store is as it was before it was created. */
    method Release(it: TripleState, ghost slots: seq<Slot>)
      requires it.ts == store && store.Valid() && store.niter > 0 && !store.freed && store.Used() == slots
      requires store.niter == 1 ==> AllLive(slots)
      modifies store, store.triples
      ensures store.Valid() && !store.freed && store.niter == old(store.niter) - 1
      ensures store.Used() == slots && store.index == old(store.index) && store.length == old(store.length)
    {
      CompactOfLive(if AllLive(slots) then slots else []);
      it.Deinit();
    }
  }

  /** The entries from j on are t, if there is one, and the rest. */
  ghost predicate Ahead(live: seq<Slot>, j: nat, t: Option<Slot>, rest: seq<Slot>) {
    j <= |live| && live[j..] == if t.Some? then [t.value] + rest else []
  }

  lemma AheadStep(live: seq<Slot>, j: nat, x: Slot, rest: seq<Slot>, t: Option<Slot>, further: seq<Slot>)
    requires Ahead(live, j, Some(x), rest) && rest == if t.Some? then [t.value] + further else []
    ensures j < |live| && live[j] == x && Ahead(live, j + 1, t, further)
  {
    assert live[j..][1..] == live[j + 1..];
    assert live[j..][0] == x;
  }

  /** The first j entries have been copied to the array. */
  ghost predicate Copied(relations: seq<NewTriple>, live: seq<Slot>, j: nat) {
    |relations| == |live| && forall k | 0 <= k < j && k < |live| :: relations[k] == Record(live[k])
  }

  lemma CopiedStep(relations: seq<NewTriple>, live: seq<Slot>, j: nat)
    requires Copied(relations, live, j) && j < |live|
    ensures Copied(relations[j := Record(live[j])], live, j + 1)
  {}

  const UUIDS := Pattern(None, Some(CollectionHash.HAS_UUID), None, None)

  /** All instances that the relations refer to are known. */
  ghost predicate RefersTo(slots: seq<Slot>, known: set<string>) {
    forall x | x in slots && x.Live() && x.t.p == "_has-uuid" :: x.t.o in known
  }

  lemma OneReference(slots: seq<Slot>, i: nat, known: set<string>)
    requires i < |slots| && Hits(slots[i], UUIDS, false)
    ensures RefersTo(slots[..i + 1], known) <==> RefersTo(slots[..i], known) && slots[i].t.o in known
  {
    assert slots[..i + 1] == slots[..i] + [slots[i]];
  }

  lemma NoneBetween(slots: seq<Slot>, i: nat, j: nat, known: set<string>)
    requires i <= j <= |slots| && forall k | i <= k < j :: !Hits(slots[k], UUIDS, false)
    ensures RefersTo(slots[..i], known) == RefersTo(slots[..j], known)
  {
    assert slots[..j] == slots[..i] + slots[i..j];
  }

  lemma {:induction false} TextFails(ts: seq<Triple>, sorted: seq<Triple>, i: nat, hash: CollectionHash.InstanceHash)
    requires i < |sorted| && CollectionHash.Part(ts, sorted[i], hash).None?
    ensures CollectionHash.TextOf(ts, sorted, hash).None?
    decreases |sorted|
  {
    if i < |sorted| - 1 { TextFails(ts, sorted[..|sorted| - 1], i, hash); }
  }

  /** The triples of the first entries. */
  ghost predicate Gathered(ts: seq<Triple>, live: seq<Slot>) {
    |ts| <= |live| && forall k | 0 <= k < |ts| :: ts[k] == live[k].t
  }

  lemma GatheredStep(ts: seq<Triple>, live: seq<Slot>)
    requires Gathered(ts, live) && |ts| < |live|
    ensures Gathered(ts + [live[|ts|].t], live)
  {}
}
