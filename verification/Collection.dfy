/** Collections (`dlite-collection.c`): a triplestore that is kept in agreement with an array of relations. */
module Collections {
  import opened Options
  import opened Triples
  import opened TripleStores
  import CollectionHash

  // ----- Live entries in the order of storage -----

  function LiveSlots(slots: seq<Slot>): seq<Slot> {
    if slots == [] then [] else (if slots[0].Live() then [slots[0]] else []) + LiveSlots(slots[1..])
  }

  function TriplesOf(slots: seq<Slot>): (ts: seq<Triple>)
    ensures |ts| == |slots| && forall i | 0 <= i < |slots| :: ts[i] == slots[i].t
  {
    seq(|slots|, i requires 0 <= i < |slots| => slots[i].t)
  }

  lemma {:induction false} LiveSlotsAre(slots: seq<Slot>)
    ensures AllLive(LiveSlots(slots))
    ensures forall x: Slot :: x in LiveSlots(slots) <==> x in slots && x.Live()
    decreases |slots|
  {
    if slots != [] {
      LiveSlotsAre(slots[1..]);
      assert slots == [slots[0]] + slots[1..];
    }
  }

  lemma {:induction false} LiveSlotsCount(slots: seq<Slot>)
    ensures |LiveSlots(slots)| == LiveCount(slots)
  {
    if slots != [] {
      var n := |slots| - 1;
      LiveSlotsCount(slots[..n]);
      assert slots == slots[..n] + [slots[n]];
      LiveSlotsAppend(slots[..n], [slots[n]]);
      assert [slots[n]][1..] == [];
    }
  }

  lemma {:induction false} LiveSlotsAppend(a: seq<Slot>, b: seq<Slot>)
    ensures LiveSlots(a + b) == LiveSlots(a) + LiveSlots(b)
  {
    if a == [] {
      assert a + b == b;
    } else {
      assert (a + b)[1..] == a[1..] + b && (a + b)[0] == a[0];
      LiveSlotsAppend(a[1..], b);
    }
  }

  lemma {:induction false} LiveSlotsDistinct(slots: seq<Slot>)
    requires Distinct(slots)
    ensures Distinct(LiveSlots(slots))
    decreases |slots|
  {
    if slots != [] {
      var rest := slots[1..];
      assert slots == [slots[0]] + rest;
      DistinctIff(slots);
      DistinctIff(rest);
      LiveSlotsDistinct(rest);
      DistinctIff(LiveSlots(rest));
      DistinctIff(LiveSlots(slots));
      LiveSlotsAre(rest);
      forall x | x in rest && slots[0].Live() ensures x.id != slots[0].id {
        var j: nat :| j < |rest| && rest[j] == x;
        assert slots[j + 1] == x;
      }
      var live := LiveSlots(slots);
      forall i, j | 0 <= i < j < |live| ensures live[i].id != live[j].id {
        if slots[0].Live() {
          assert live[j] == LiveSlots(rest)[j - 1];
          if i == 0 { assert live[j] in LiveSlots(rest); } else { assert live[i] == LiveSlots(rest)[i - 1]; }
        }
      }
    }
  }

  const ANY := Pattern(None, None, None, None)

  lemma LiveStep(slots: seq<Slot>, pos: nat)
    requires pos < |slots|
    ensures LiveSlots(slots[pos..]) == (if slots[pos].Live() then [slots[pos]] else []) + LiveSlots(slots[pos + 1..])
  {
    assert slots[pos..][1..] == slots[pos + 1..] && slots[pos..][0] == slots[pos];
  }

  /** The next live entry. */
  lemma {:induction false} NextLive(slots: seq<Slot>, pos: nat)
    requires pos <= |slots|
    ensures var i := Search(slots, pos, ANY, false);
      && pos <= i <= |slots|
      && LiveSlots(slots[pos..]) == if i < |slots| then [slots[i]] + LiveSlots(slots[i + 1..]) else []
    decreases |slots| - pos
  {
    if pos < |slots| {
      LiveStep(slots, pos);
      assert Hits(slots[pos], ANY, false) == slots[pos].Live();
      if !slots[pos].Live() { NextLive(slots, pos + 1); }
    }
  }

  // ----- Relations -----

  /** A relation as copied from or to the store, with its id. */
  function Record(x: Slot): NewTriple {
    NewTriple(Some(x.t.s), Some(x.t.p), Some(x.t.o), x.t.d, x.id)
  }

  function Records(slots: seq<Slot>): (r: seq<NewTriple>)
    ensures |r| == |slots|
  {
    seq(|slots|, i requires 0 <= i < |slots| => Record(slots[i]))
  }

  /** Relation without content, as left by zeroed memory. */
  const BLANK := NewTriple(None, None, None, None, None)

  /** An index that gives the position of each entry. */
  function Positions(slots: seq<Slot>): map<string, nat> {
    if slots == [] then map[]
    else
      var n := |slots| - 1;
      if slots[n].Live() then Positions(slots[..n])[slots[n].id.value := n] else Positions(slots[..n])
  }

  lemma {:induction false} PositionsAre(slots: seq<Slot>)
    requires AllLive(slots) && Distinct(slots)
    ensures forall id | id in Positions(slots) ::
      Positions(slots)[id] < |slots| && slots[Positions(slots)[id]].id == Some(id)
    ensures forall i | 0 <= i < |slots| :: slots[i].id.value in Positions(slots)
  {
    if slots != [] {
      var rest := slots[..|slots| - 1];
      PrefixIsDistinct(slots, |slots| - 1);
      PositionsAre(rest);
      DistinctIff(slots);
      assert forall i | 0 <= i < |rest| :: slots[i] == rest[i];
    }
  }

  lemma {:induction false} LoadFrom(slots: seq<Slot>, digest: Digest, i: nat)
    requires AllLive(slots) && Distinct(slots) && i <= |slots|
    ensures AddFrom(Table(slots[..i], Positions(slots[..i])), Records(slots), digest, i)
      == Table(slots, Positions(slots))
    decreases |slots| - i
  {
    if i == |slots| {
      assert slots[..i] == slots;
    } else {
      PrefixIsDistinct(slots, i);
      PositionsAre(slots[..i]);
      DistinctIff(slots);
      assert slots[..i + 1][..i] == slots[..i];
      assert slots[..i + 1] == slots[..i] + [slots[i]];
      LoadFrom(slots, digest, i + 1);
    }
  }

  /** Loading relations that were saved gives the same store, in the same order, and an index that gives the
      position of each entry. */
  lemma LoadSaved(slots: seq<Slot>, digest: Digest)
    requires Distinct(slots)
    ensures var live := LiveSlots(slots);
      var tab := AddFrom(Table([], map[]), Records(live), digest, 0);
      && tab.slots == live
      && tab.Valid() && Contents(tab.slots) == Contents(slots)
      && forall id | id in tab.index :: IsIndexed(tab, id)
  {
    var live := LiveSlots(slots);
    LiveSlotsAre(slots);
    LiveSlotsDistinct(slots);
    assert live[..0] == [];
    LoadFrom(live, digest, 0);
    PositionsAre(live);
    SameContents(live, slots);
    AddFromKeeps(Table([], map[]), Records(live), digest, 0);
  }

  // ----- Hash -----

  /** The text that is hashed for a store. */
  function StoreText(slots: seq<Slot>, hash: CollectionHash.InstanceHash): Option<string> {
    CollectionHash.HashText(TriplesOf(LiveSlots(slots)), hash)
  }

  /** triplestore_find_first() finds the hash that is stored first. */
  lemma {:induction false} FindsFirstHash(slots: seq<Slot>, pos: nat, s: string)
    requires pos <= |slots|
    ensures var i := Search(slots, pos, Pattern(Some(s), Some(CollectionHash.HAS_HASH), None, None), true);
      CollectionHash.FirstHash(TriplesOf(LiveSlots(slots[pos..])), s) == if i < |slots| then Some(slots[i].t) else None
    decreases |slots| - pos
  {
    if pos < |slots| {
      var pat, rest := Pattern(Some(s), Some(CollectionHash.HAS_HASH), None, None), LiveSlots(slots[pos + 1..]);
      LiveStep(slots, pos);
      FindsFirstHash(slots, pos + 1, s);
      if slots[pos].Live() {
        assert Hits(slots[pos], pat, true) == CollectionHash.IsHashOf(slots[pos].t, s);
        var ts := TriplesOf([slots[pos]] + rest);
        assert ts[0] == slots[pos].t && ts[1..] == TriplesOf(rest);
      } else {
        assert [] + rest == rest;
      }
    }
  }

  lemma TakeOut(slots: seq<Slot>, i: nat)
    requires i < |slots|
    ensures var rest := slots[..i] + slots[i + 1..];
      && multiset(slots) == multiset(rest) + multiset{slots[i]}
      && multiset(TriplesOf(slots)) == multiset(TriplesOf(rest)) + multiset{slots[i].t}
  {
    assert slots == slots[..i] + [slots[i]] + slots[i + 1..];
    var ts := TriplesOf(slots);
    assert ts == ts[..i] + [ts[i]] + ts[i + 1..];
    assert TriplesOf(slots[..i] + slots[i + 1..]) == ts[..i] + ts[i + 1..];
  }

  lemma CancelOne(a: multiset<Slot>, b: multiset<Slot>, x: Slot)
    requires a + multiset{x} == b + multiset{x}
    ensures a == b
  {
    assert a == (a + multiset{x}) - multiset{x};
    assert b == (b + multiset{x}) - multiset{x};
  }

  lemma {:induction false} SameTriples(a: seq<Slot>, b: seq<Slot>)
    requires multiset(a) == multiset(b)
    ensures multiset(TriplesOf(a)) == multiset(TriplesOf(b))
    decreases |a|
  {
    assert |multiset(a)| == |a| && |multiset(b)| == |b|;
    if a != [] {
      assert a[0] in multiset(b);
      var i: nat :| i < |b| && b[i] == a[0];
      TakeOut(a, 0);
      TakeOut(b, i);
      var ra, rb := a[..0] + a[1..], b[..i] + b[i + 1..];
      CancelOne(multiset(ra), multiset(rb), a[0]);
      SameTriples(ra, rb);
    }
  }

  /** Entries with different ids occur once. */
  lemma {:induction false} OccurOnce(slots: seq<Slot>, x: Slot)
    requires AllLive(slots) && Distinct(slots)
    ensures multiset(slots)[x] == if x in slots then 1 else 0
  {
    if slots != [] {
      var n := |slots| - 1;
      PrefixIsDistinct(slots, n);
      OccurOnce(slots[..n], x);
      DistinctIff(slots);
      assert slots == slots[..n] + [slots[n]];
      forall y | y in slots[..n] ensures y.id != slots[n].id {
        var i: nat :| i < n && slots[i] == y;
      }
    }
  }

  /** The hash is a function of the finite map that the store stands for: neither the order in which triples
      were added or moved nor pending removals matter. */
  lemma SameContentsSameText(a: seq<Slot>, b: seq<Slot>, hash: CollectionHash.InstanceHash)
    requires Distinct(a) && Distinct(b) && Contents(a) == Contents(b)
    requires CollectionHash.HashesAgree(multiset(TriplesOf(LiveSlots(a))))
    ensures StoreText(a, hash) == StoreText(b, hash)
  {
    ContentsAre(a);
    ContentsAre(b);
    LiveSlotsAre(a);
    LiveSlotsAre(b);
    LiveSlotsDistinct(a);
    LiveSlotsDistinct(b);
    forall x: Slot ensures multiset(LiveSlots(a))[x] == multiset(LiveSlots(b))[x] {
      OccurOnce(LiveSlots(a), x);
      OccurOnce(LiveSlots(b), x);
      if x.Live() { assert x == Slot(Some(x.id.value), x.t); }
    }
    SameTriples(LiveSlots(a), LiveSlots(b));
    CollectionHash.HashIgnoresOrder(TriplesOf(LiveSlots(a)), TriplesOf(LiveSlots(b)), hash);
  }

  /** Compacting a store does not change its hash. */
  lemma CompactionKeepsText(slots: seq<Slot>, hash: CollectionHash.InstanceHash)
    requires Distinct(slots) && CollectionHash.HashesAgree(multiset(TriplesOf(LiveSlots(slots))))
    ensures StoreText(Compact(slots), hash) == StoreText(slots, hash)
  {
    CompactKeeps(slots);
    SameContentsSameText(slots, Compact(slots), hash);
  }

  /** Whether removals are made at once or left pending does not matter to the hash. */
  lemma RemovalTextIsSame(slots: seq<Slot>, pat: Pattern, hash: CollectionHash.InstanceHash)
    requires Distinct(slots)
    requires CollectionHash.HashesAgree(multiset(TriplesOf(LiveSlots(RemoveBelow(slots, |slots|, pat, true)))))
    ensures StoreText(RemoveBelow(slots, |slots|, pat, true), hash)
      == StoreText(RemoveBelow(slots, |slots|, pat, false), hash)
  {
    RemovalRefinesMap(slots, pat, true);
    RemovalRefinesMap(slots, pat, false);
    SameContentsSameText(RemoveBelow(slots, |slots|, pat, true), RemoveBelow(slots, |slots|, pat, false), hash);
  }
}
