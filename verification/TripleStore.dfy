/** The built-in triplestore (`triplestore-builtin.c`): a growable array with an index from ids, removals
    that stay pending while iterators run, and compaction when the last iterator is released. */
module TripleStores {
  import opened Options
  import opened Triples

  const CHUNK_SIZE: nat := 1024

  class TripleStore {
    var triples: array<Slot>       // allocated array; its length is `size` in the source
    var length: nat                // number of live triples
    var trueLength: nat            // number of used array elements, including pending removals
    var index: map<string, nat>
    var niter: nat                 // number of running iterators
    var freed: bool                // to be freed when the last iterator is released
    var released: bool             // the memory has been given back
    const digest: Digest

    ghost predicate Valid()
      reads this, triples
    {
      && !released
      && trueLength <= triples.Length
      && Table().Valid()
      && length == LiveCount(Used())
      && (niter == 0 ==> length == trueLength)
    }

    ghost function Used(): seq<Slot>
      reads this, triples
      requires trueLength <= triples.Length
    {
      triples[..trueLength]
    }

    /** The specification state. */
    ghost function Table(): Table
      reads this, triples
      requires trueLength <= triples.Length
    {
      Triples.Table(Used(), index)
    }

    constructor (digest: Digest)
      ensures Valid() && Table() == Triples.Table([], map[]) && niter == 0 && !freed && fresh(triples)
      ensures this.digest == digest
    {
      triples := new Slot[0];
      length, trueLength, index, niter, freed, released := 0, 0, map[], 0, false, false;
      this.digest := digest;
    }

    /** Without running iterators no removal is pending. */
    lemma NoPendingRemovals()
      requires Valid() && niter == 0
      ensures AllLive(Used()) && |Contents(Used())| == length == trueLength
    {
      ContentsAre(Used());
    }

    /** Makes room for n more triples, in whole chunks. */
    method Reserve(n: nat)
      requires Valid()
      modifies this`triples
      ensures Valid() && Used() == old(Used()) && trueLength + n <= triples.Length
      ensures triples == old(triples) || fresh(triples)
    {
      if triples.Length < trueLength + n {
        var m := (trueLength + n - triples.Length) / CHUNK_SIZE;
        var size := triples.Length + (m + 1) * CHUNK_SIZE;
        Reallocate(size);
      }
    }

    /** realloc() of the triple array. */
    method Reallocate(size: nat)
      requires trueLength <= triples.Length && trueLength <= size
      modifies this`triples
      ensures fresh(triples) && triples.Length == size && Used() == old(Used())
    {
      var grown := new Slot[size](_ => Slot(None, Triple("", "", "", None)));
      var i := 0;
      while i < trueLength
        invariant 0 <= i <= trueLength && grown[..i] == triples[..i]
        modifies grown
      {
        grown[i] := triples[i];
        i := i + 1;
      }
      triples := grown;
    }

    /** Adds a batch of triples, skipping those whose id is present; false if it stopped at a triple
        without subject, predicate or object. */
    method AddTriples(batch: seq<NewTriple>) returns (ok: bool)
      requires Valid() && forall x | x in batch :: x.Defined()
      modifies this, triples
      ensures Valid() && niter == old(niter) && freed == old(freed)
      ensures Table() == AddFrom(old(Table()), batch, digest, 0)
      ensures ok <==> forall j | 0 <= j < |batch| :: batch[j].Complete()
      ensures triples == old(triples) || fresh(triples)
    {
      Reserve(|batch|);
      ok := AddReserved(batch);
    }

    method AddReserved(batch: seq<NewTriple>) returns (ok: bool)
      requires Valid() && trueLength + |batch| <= triples.Length
      modifies this`length, this`trueLength, this`index, triples
      ensures Valid() && Table() == AddFrom(old(Table()), batch, digest, 0)
      ensures ok <==> forall j | 0 <= j < |batch| :: batch[j].Complete()
    {
      ghost var end := AddFrom(Table(), batch, digest, 0);
      var i: nat := 0;
      while i < |batch|
        invariant i <= |batch| && trueLength + |batch| - i <= triples.Length && AllComplete(batch, i)
        invariant Valid() && AddFrom(Table(), batch, digest, i) == end
      {
        ok := AddNext(batch, i);
        if !ok { return; }
        i := i + 1;
      }
      return true;
    }

    /** Adds triple number i of the batch, unless it is incomplete. */
    method AddNext(batch: seq<NewTriple>, i: nat) returns (ok: bool)
      requires Valid() && i < |batch| && trueLength < triples.Length
      modifies this`length, this`trueLength, this`index, triples
      ensures Valid() && trueLength <= old(trueLength) + 1 && ok == batch[i].Complete()
      ensures if ok then AddFrom(Table(), batch, digest, i + 1) == AddFrom(old(Table()), batch, digest, i)
              else Table() == AddFrom(old(Table()), batch, digest, i)
    {
      if !batch[i].Complete() { return false; }
      AddFromStep(Table(), batch, digest, i);
      AddTriple(batch[i], i);
      return true;
    }

    method AddTriple(x: NewTriple, i: nat)
      requires Valid() && x.Complete() && trueLength < triples.Length
      modifies this`length, this`trueLength, this`index, triples
      ensures Valid() && Table() == AddOne(old(Table()), x, digest, i)
      ensures trueLength <= old(trueLength) + 1
    {
      AddOneInserts(Table(), x, digest, i);
      var id := IdOf(x, digest);
      if id !in index {
        triples[trueLength] := Slot(Some(id), x.ToTriple());
        length := length + 1;
        trueLength := trueLength + 1;
        index := index[id := i];
        assert Used() == old(Used()) + [Slot(Some(id), x.ToTriple())];
        assert Used()[..trueLength - 1] == old(Used());
      }
    }

    /** Removes triple number n; false if there is none. */
    method RemoveByIndex(n: nat) returns (ok: bool)
      requires Valid()
      modifies this`length, this`trueLength, this`index, triples
      ensures Valid()
      ensures ok <==> n < old(trueLength) && old(triples[n]).Live()
      ensures ok ==> Table() == RemoveEntry(old(Table()), n, niter > 0) && length == old(length) - 1
      ensures !ok ==> Table() == old(Table()) && length == old(length)
    {
      if n >= trueLength || !triples[n].Live() { return false; }
      RemoveEntryKeeps(Table(), n, niter > 0);
      index := index - {triples[n].id.value};
      length := length - 1;
      if niter > 0 {
        triples[n] := triples[n].(id := None);
      } else {
        if n < length { triples[n] := triples[length]; }
        trueLength := length;
      }
      assert Used() == RemoveAt(old(Used()), n, niter > 0);
      return true;
    }

    /** Removes the triple that the index names for the given id; false on error. */
    method RemoveById(id: string) returns (ok: bool)
      requires Valid()
      modifies this`length, this`trueLength, this`index, triples
      ensures Valid() && Table() == Triples.RemoveById(old(Table()), id, niter > 0)
    {
      if id !in index { return false; }
      ok := RemoveByIndex(index[id]);
    }

    /** Removes the matching triples and returns their number. */
    method Remove(pat: Pattern) returns (n: nat)
      requires Valid()
      modifies this`length, this`trueLength, this`index, triples
      ensures Valid() && Table() == RemoveMatching(old(Table()), pat, niter > 0)
      ensures Contents(Used()) == Rest(old(Contents(Used())), pat)
      ensures n == CountBelow(old(Used()), |old(Used())|, pat) && length == old(length) - n
    {
      RemovalKeepsRest(Used(), pat, niter > 0);
      n := RemoveEach(pat);
    }

    method RemoveEach(pat: Pattern) returns (n: nat)
      requires Valid()
      modifies this`length, this`trueLength, this`index, triples
      ensures Valid() && Table() == RemoveMatching(old(Table()), pat, niter > 0)
      ensures n == CountBelow(old(Used()), |old(Used())|, pat) && length == old(length) - n
    {
      ghost var before := Table();
      n := 0;
      var i: nat := trueLength;
      ghost var end, count := RemoveBelow(Used(), i, pat, niter > 0), CountBelow(Used(), i, pat);
      while i > 0
        invariant i <= trueLength && Valid() && length == old(length) - n
        invariant RemoveBelow(Used(), i, pat, niter > 0) == end
        invariant n + CountBelow(Used(), i, pat) == count
        invariant IsPart(index, before.index)
      {
        i := i - 1;
        var hit := RemoveIfMatching(i, pat, before.index);
        if hit { n := n + 1; }
      }
      PrunedTable(before, Table(), pat, niter > 0);
    }

    /** The body of the removal loop. */
    method RemoveIfMatching(i: nat, pat: Pattern, ghost all: map<string, nat>) returns (hit: bool)
      requires Valid() && i < trueLength && IsPart(index, all)
      modifies this`length, this`trueLength, this`index, triples
      ensures Valid() && i <= trueLength && length == old(length) - if hit then 1 else 0
      ensures RemoveBelow(Used(), i, pat, niter > 0) == RemoveBelow(old(Used()), i + 1, pat, niter > 0)
      ensures CountBelow(Used(), i, pat) + (if hit then 1 else 0) == CountBelow(old(Used()), i + 1, pat)
      ensures IsPart(index, all)
    {
      hit := triples[i].Live() && Matches(pat, triples[i].t);
      if hit {
        ScanHit(Used(), i, niter > 0, pat);
        var ok := RemoveByIndex(i);
        assert Used() == RemoveAt(old(Used()), i, niter > 0);
      } else {
        ScanMiss(Used(), i, niter > 0, pat);
      }
    }

    /** Removes everything.  Only the number of running iterators survives. */
    method Clear()
      requires Valid()
      modifies this, triples
      ensures Valid() && Table() == Triples.Table([], map[]) && niter == old(niter) && !freed && fresh(triples)
    {
      var n: int := trueLength - 1;
      while n >= 0
        invariant -1 <= n < trueLength && Valid() && triples == old(triples) && niter == old(niter)
      {
        if triples[n].Live() {
          var ok := RemoveByIndex(n);
        }
        n := n - 1;
      }
      triples := new Slot[0];
      length, trueLength, index, freed := 0, 0, map[], false;
    }

    /** Frees the store, or marks it to be freed by the last of the running iterators. */
    method Free()
      requires Valid() && (!freed || niter == 0)
      modifies this, triples
      ensures niter == old(niter) && released == (niter == 0)
      ensures !released ==> Valid() && freed && Table() == Triples.Table([], map[])
      ensures fresh(triples)
    {
      Clear();
      if niter > 0 { freed := true; } else { released := true; }
    }

    /** First matching triple. */
    method FindFirst(pat: Pattern) returns (r: Option<Triple>)
      requires Valid()
      ensures var i := Search(Used(), 0, pat, true);
        r == if i < trueLength then Some(Used()[i].t) else None
      ensures r.Some? ==> !Differs(pat, r.value)
      ensures r.None? ==> forall i | 0 <= i < trueLength && triples[i].Live() :: Differs(pat, triples[i].t)
    {
      SearchIsFirst(Used(), 0, pat, true);
      var i := 0;
      while i < trueLength
        invariant 0 <= i <= trueLength && Search(Used(), 0, pat, true) == Search(Used(), i, pat, true)
      {
        if triples[i].Live() && Matches(pat, triples[i].t) { return Some(triples[i].t); }
        i := i + 1;
      }
      return None;
    }

    /** Compaction: drops pending removals at the end and fills the other holes with entries from there,
        then gives back memory if more than a chunk is unused. */
    method CompactTriples()
      requires !released && trueLength <= triples.Length && Table().Valid() && length == LiveCount(Used()) && niter == 0
      modifies this`trueLength, this`triples, triples
      ensures Valid() && Used() == Compact(old(Used()))
      ensures triples == old(triples) || fresh(triples)
    {
      CompactKeeps(Used());
      TrimTailKeeps(Used());
      TrimTailIsDistinct(Used());
      DropTail();
      Fill();
      if triples.Length > length + CHUNK_SIZE {
        Reallocate(length + length % CHUNK_SIZE);
      }
    }

    method DropTail()
      requires trueLength <= triples.Length
      modifies this`trueLength
      ensures trueLength <= old(trueLength) && Used() == TrimTail(old(Used()))
    {
      var i: int := trueLength - 1;
      while i >= 0 && !triples[i].Live()
        invariant -1 <= i == trueLength - 1 < old(trueLength)
        invariant TrimTail(Used()) == TrimTail(old(Used()))
      {
        assert Used()[..i] == triples[..i];
        trueLength := trueLength - 1;
        i := i - 1;
      }
    }

    method Fill()
      requires trueLength <= triples.Length && Distinct(Used())
      requires Used() != [] ==> Used()[|Used()| - 1].Live()
      modifies this`trueLength, triples
      ensures trueLength <= old(trueLength) && Used() == FillHoles(old(Used()), |old(Used())|)
    {
      var i: int := trueLength - 1;
      while i >= 0
        invariant -1 <= i < trueLength <= old(trueLength)
        invariant AllLive(Used()[i + 1..]) && Distinct(Used())
        invariant Used() != [] ==> Used()[|Used()| - 1].Live()
        invariant FillHoles(Used(), i + 1) == FillHoles(old(Used()), |old(Used())|)
      {
        if !triples[i].Live() {
          assert i != trueLength - 1;
          FillHole(i);
        } else {
          assert Used()[i..] == [Used()[i]] + Used()[i + 1..];
        }
        i := i - 1;
      }
    }

    /** The last entry is moved to a hole before it. */
    method FillHole(i: nat)
      requires i + 1 < trueLength <= triples.Length && Distinct(Used()) && !triples[i].Live()
      requires AllLive(Used()[i + 1..])
      modifies this`trueLength, triples
      ensures trueLength == old(trueLength) - 1 && Used() == RemoveAt(old(Used()), i, false)
      ensures AllLive(Used()[i..]) && Distinct(Used()) && Used()[|Used()| - 1].Live()
    {
      FillKeeps(Used(), i);
      HoleFilled(Used(), i);
      trueLength := trueLength - 1;
      triples[i] := triples[trueLength];
      assert Used() == RemoveAt(old(Used()), i, false);
      assert Used()[|Used()| - 1] == Used()[i..][|Used()| - 1 - i];
    }
  }

  ghost predicate AllComplete(batch: seq<NewTriple>, n: nat) {
    n <= |batch| && forall j | 0 <= j < n :: batch[j].Complete()
  }

  /** What remains of an index. */
  ghost predicate IsPart(m: map<string, nat>, all: map<string, nat>) {
    forall id | id in m :: id in all && m[id] == all[id]
  }

  /** One step of the downward scan. */
  lemma ScanHit(slots: seq<Slot>, i: nat, lazy: bool, pat: Pattern)
    requires i < |slots| && slots[i].Live() && Matches(pat, slots[i].t)
    ensures RemoveBelow(slots, i + 1, pat, lazy) == RemoveBelow(RemoveAt(slots, i, lazy), i, pat, lazy)
    ensures CountBelow(slots, i + 1, pat) == CountBelow(RemoveAt(slots, i, lazy), i, pat) + 1
  {
    assert RemoveAt(slots, i, lazy)[..i] == slots[..i];
    CountSame(slots, RemoveAt(slots, i, lazy), i, pat);
  }

  lemma ScanMiss(slots: seq<Slot>, i: nat, lazy: bool, pat: Pattern)
    requires i < |slots| && !(slots[i].Live() && Matches(pat, slots[i].t))
    ensures RemoveBelow(slots, i + 1, pat, lazy) == RemoveBelow(slots, i, pat, lazy)
    ensures CountBelow(slots, i + 1, pat) == CountBelow(slots, i, pat)
  {}

  lemma HoleFilled(slots: seq<Slot>, i: nat)
    requires i + 1 < |slots| && AllLive(slots[i + 1..])
    ensures AllLive(RemoveAt(slots, i, false)[i..])
  {
    assert forall j | i + 1 <= j < |slots| :: slots[j] == slots[i + 1..][j - i - 1];
  }

  /** A running iterator (`TripleState`). */
  class TripleState {
    const ts: TripleStore
    var pos: nat

    constructor (ts: TripleStore)
      requires ts.Valid()
      modifies ts`niter
      ensures this.ts == ts && pos == 0 && ts.Valid() && ts.niter == old(ts.niter) + 1
    {
      this.ts := ts;
      pos := 0;
      new;
      ts.niter := ts.niter + 1;
    }

    /** Releases the iterator.  The last one compacts the store, or frees it if that is due; a store that
        is to be freed is not used any more, so no removals are pending in it. */
    method Deinit()
      requires ts.Valid() && ts.niter > 0 && (ts.freed ==> ts.length == ts.trueLength)
      modifies ts, ts.triples
      ensures ts.niter == old(ts.niter) - 1
      ensures ts.released <==> old(ts.freed) && ts.niter == 0
      ensures !ts.released ==> ts.Valid() && ts.freed == old(ts.freed) && ts.index == old(ts.index)
      ensures !ts.released ==> ts.Used() == if ts.niter == 0 then Compact(old(ts.Used())) else old(ts.Used())
      ensures ts.triples == old(ts.triples) || fresh(ts.triples)
    {
      ts.niter := ts.niter - 1;
      if ts.freed && ts.niter == 0 {
        ts.Free();
        return;
      }
      if ts.niter == 0 {
        if ts.trueLength > ts.length {
          ts.CompactTriples();
        } else {
          CompactOfLive(ts.Used());
        }
      }
    }

    /** Next triple matching the pattern. */
    method Find(pat: Pattern) returns (r: Option<Triple>)
      requires ts.Valid()
      modifies this`pos
      ensures var i := Search(ts.Used(), old(pos), pat, false);
        if i < ts.trueLength then r == Some(ts.Used()[i].t) && pos == i + 1 else r == None && pos == i
    {
      while pos < ts.trueLength
        invariant Search(ts.Used(), old(pos), pat, false) == Search(ts.Used(), pos, pat, false)
        decreases ts.trueLength - pos
      {
        var x := ts.triples[pos];
        pos := pos + 1;
        if x.Live() && MatchesFind(pat, x.t) { return Some(x.t); }
      }
      return None;
    }

    /** Next triple. */
    method Next() returns (r: Option<Triple>)
      requires ts.Valid()
      modifies this`pos
      ensures var i := Search(ts.Used(), old(pos), Pattern(None, None, None, None), false);
        if i < ts.trueLength then r == Some(ts.Used()[i].t) && pos == i + 1 else r == None && pos == i
    {
      while pos < ts.trueLength
        invariant Search(ts.Used(), old(pos), Pattern(None, None, None, None), false)
               == Search(ts.Used(), pos, Pattern(None, None, None, None), false)
        decreases ts.trueLength - pos
      {
        var x := ts.triples[pos];
        pos := pos + 1;
        if x.Live() { return Some(x.t); }
      }
      return None;
    }
  }

  lemma CompactOfLive(slots: seq<Slot>)
    requires AllLive(slots)
    ensures Compact(slots) == slots
  {
    FillOfLive(slots, |slots|);
  }

  lemma {:induction false} FillOfLive(slots: seq<Slot>, i: nat)
    requires AllLive(slots) && i <= |slots|
    ensures FillHoles(slots, i) == slots
  {
    if i > 0 { FillOfLive(slots, i - 1); }
  }
}
