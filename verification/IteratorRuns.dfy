/** Whole runs of the built-in triplestore with any number of concurrent iterators: what an iterator that
    is run to its end has returned.  The steps are those of the methods of `TripleStore` and
    `TripleState`. */
module IteratorRuns {
  import opened Options
  import opened Triples

  /** The table and the positions of the running iterators. */
  datatype State = State(tab: Table, iters: map<nat, nat>) {
    ghost predicate Valid() {
      tab.Valid() && (iters == map[] ==> AllLive(tab.slots))
    }
  }

  datatype Event =
    | Add(batch: seq<NewTriple>)
    | Remove(pat: Pattern)
    | RemoveId(id: string)
    | Open(k: nat)
    | Find(k: nat, pattern: Pattern)
    | Release(k: nat)

  predicate Enabled(st: State, e: Event) {
    match e
    case Add(_) => true
    case Remove(_) => true
    case RemoveId(_) => true
    case Open(k) => k !in st.iters
    case Find(k, _) => k in st.iters
    case Release(k) => k in st.iters
  }

  function Step(st: State, e: Event, digest: Digest): State
    requires Enabled(st, e)
  {
    var lazy := st.iters != map[];
    match e
    case Add(batch) => st.(tab := AddFrom(st.tab, batch, digest, 0))
    case Remove(pat) =>
      st.(tab := RemoveMatching(st.tab, pat, lazy))
    case RemoveId(id) => st.(tab := RemoveById(st.tab, id, lazy))
    case Open(k) => st.(iters := st.iters[k := 0])
    case Find(k, pat) =>
      var i := Search(st.tab.slots, st.iters[k], pat, false);
      st.(iters := st.iters[k := if i < |st.tab.slots| then i + 1 else i])
    case Release(k) =>
      var iters := st.iters - {k};
      State(if iters == map[] then st.tab.(slots := Compact(st.tab.slots)) else st.tab, iters)
  }

  predicate Runnable(st: State, run: seq<Event>, digest: Digest)
    decreases |run|
  {
    run == [] || (Enabled(st, run[0]) && Runnable(Step(st, run[0], digest), run[1..], digest))
  }

  function After(st: State, run: seq<Event>, digest: Digest): State
    requires Runnable(st, run, digest)
    decreases |run|
  {
    if run == [] then st else After(Step(st, run[0], digest), run[1..], digest)
  }

  /** What iterator k returned during a run: the positions, with the entries found there at the time. */
  datatype Hit = Hit(pos: nat, slot: Slot)

  function Returned(st: State, run: seq<Event>, digest: Digest, k: nat): seq<Hit>
    requires Runnable(st, run, digest)
    decreases |run|
  {
    if run == [] then []
    else
      var rest := Returned(Step(st, run[0], digest), run[1..], digest, k);
      if run[0].Find? && run[0].k == k then
        var i := Search(st.tab.slots, st.iters[k], run[0].pattern, false);
        (if i < |st.tab.slots| then [Hit(i, st.tab.slots[i])] else []) + rest
      else rest
  }

  // ----- Every step keeps the invariant -----

  lemma StepKeepsValid(st: State, e: Event, digest: Digest)
    requires st.Valid() && Enabled(st, e)
    ensures Step(st, e, digest).Valid()
  {
    var slots, lazy := st.tab.slots, st.iters != map[];
    match e
    case Add(batch) =>
      AddFromKeeps(st.tab, batch, digest, 0);
      var after := AddFrom(st.tab, batch, digest, 0).slots;
      assert after == slots + after[|slots|..];
    case Remove(pat) =>
      RemoveMatchingKeeps(st.tab, pat, lazy);
    case RemoveId(id) =>
      if id in st.tab.index && st.tab.index[id] < |slots| && slots[st.tab.index[id]].Live() {
        RemoveEntryKeeps(st.tab, st.tab.index[id], lazy);
      }
    case Open(k) =>
      assert k in st.iters[k := 0];
    case Find(k, pat) =>
      assert k in Step(st, e, digest).iters;
    case Release(k) =>
      CompactKeeps(slots);
  }

  /** The triplestore invariant holds after every run: ids of live entries are distinct and are the keys of
      the index, and without running iterators no removal is pending. */
  lemma {:induction false} RunsKeepValid(st: State, run: seq<Event>, digest: Digest)
    requires st.Valid() && Runnable(st, run, digest)
    ensures After(st, run, digest).Valid()
    decreases |run|
  {
    if run != [] {
      StepKeepsValid(st, run[0], digest);
      RunsKeepValid(Step(st, run[0], digest), run[1..], digest);
    }
  }

  // ----- Entries stay where they are while an iterator runs -----

  /** The later entry is the earlier one, or its pending removal. */
  predicate Aged(later: Slot, earlier: Slot) {
    later == earlier || later == earlier.(id := None)
  }

  ghost predicate Grown(later: seq<Slot>, earlier: seq<Slot>) {
    |earlier| <= |later| && forall i | 0 <= i < |earlier| :: Aged(later[i], earlier[i])
  }

  lemma StepGrows(st: State, e: Event, digest: Digest, k: nat)
    requires st.Valid() && Enabled(st, e) && k in st.iters && e != Release(k)
    ensures Grown(Step(st, e, digest).tab.slots, st.tab.slots) && k in Step(st, e, digest).iters
    ensures (!e.Find? || e.k != k) ==> Step(st, e, digest).iters[k] == st.iters[k]
  {
    var slots := st.tab.slots;
    match e
    case Add(batch) => AddFromKeeps(st.tab, batch, digest, 0);
    case Remove(pat) => LazyRemovalInPlace(slots, |slots|, pat);
    case RemoveId(id) =>
    case Open(_) =>
    case Find(_, _) =>
    case Release(j) => assert k in st.iters - {j};
  }

  /** The run neither releases nor reopens iterator k, and iterator k always looks for the same pattern. */
  ghost predicate Follows(run: seq<Event>, k: nat, pat: Pattern) {
    forall e | e in run :: e != Release(k) && e != Open(k) && (e.Find? && e.k == k ==> e.pattern == pat)
  }

  ghost predicate Increasing(hits: seq<Hit>, from: nat, to: nat) {
    && (forall i | 0 <= i < |hits| :: from <= hits[i].pos < to)
    && forall i, j | 0 <= i < j < |hits| :: hits[i].pos < hits[j].pos
  }

  ghost predicate Contains(hits: seq<Hit>, i: nat) {
    exists h | h in hits :: h.pos == i
  }

  /** What iterator k returns while it moves from its present position: matching entries that are live at
      the time, at increasing positions, and every matching entry that it passes and that is live at the
      end of the run. */
  lemma {:induction false} IteratorPasses(st: State, run: seq<Event>, digest: Digest, k: nat, pat: Pattern)
    requires st.Valid() && Runnable(st, run, digest) && k in st.iters && Follows(run, k, pat)
    ensures k in After(st, run, digest).iters
    ensures Passes(st.tab.slots, After(st, run, digest).tab.slots, Returned(st, run, digest, k), st.iters[k],
                   After(st, run, digest).iters[k], pat)
    decreases |run|
  {
    if run != [] {
      var e, rest := run[0], run[1..];
      assert e in run && forall x | x in rest :: x in run;
      var next := Step(st, e, digest);
      StepKeepsValid(st, e, digest);
      StepGrows(st, e, digest, k);
      IteratorPasses(next, rest, digest, k, pat);
      PassesStep(st, e, next, digest, After(next, rest, digest), Returned(next, rest, digest, k), k, pat);
    }
  }

  /** An iterator moves over the entries from one position to another, and they become those of the end: the hits are
      at increasing positions, they match and are live at the time, and every entry in between that matches and is
      live at the end is among them. */
  ghost predicate Passes(slots: seq<Slot>, end: seq<Slot>, hits: seq<Hit>, from: nat, to: nat, pat: Pattern) {
    && from <= to && Grown(end, slots) && Increasing(hits, from, to)
    && (forall h | h in hits :: Hits(h.slot, pat, false) && h.pos < |end| && Aged(end[h.pos], h.slot))
    && forall i | from <= i < to && i < |end| && Hits(end[i], pat, false) :: Contains(hits, i)
  }

  lemma GrownFurther(a: seq<Slot>, b: seq<Slot>, c: seq<Slot>)
    requires Grown(b, a) && Grown(c, b)
    ensures Grown(c, a)
  {}

  lemma PassesStep(st: State, e: Event, next: State, digest: Digest, end: State, later: seq<Hit>, k: nat, pat: Pattern)
    requires st.Valid() && Enabled(st, e) && next == Step(st, e, digest) && k in st.iters && e != Release(k)
    requires (e.Find? && e.k == k ==> e.pattern == pat) && k in next.iters && k in end.iters
    requires Passes(next.tab.slots, end.tab.slots, later, next.iters[k], end.iters[k], pat)
    ensures var i := Search(st.tab.slots, st.iters[k], pat, false);
      var first := if e.Find? && e.k == k && i < |st.tab.slots| then [Hit(i, st.tab.slots[i])] else [];
      Passes(st.tab.slots, end.tab.slots, first + later, st.iters[k], end.iters[k], pat)
  {
    StepGrows(st, e, digest, k);
    GrownFurther(st.tab.slots, next.tab.slots, end.tab.slots);
    if e.Find? && e.k == k {
      FoundEntry(st, e, next, end, later, k, pat);
    } else {
      assert [] + later == later;
    }
  }

  /** The step in which iterator k itself moves. */
  lemma FoundEntry(st: State, e: Event, next: State, end: State, later: seq<Hit>, k: nat, pat: Pattern)
    requires st.Valid() && k in st.iters && e == Find(k, pat) && k in end.iters && k in next.iters
    requires var i := Search(st.tab.slots, st.iters[k], pat, false);
      next.tab == st.tab && next.iters[k] == (if i < |st.tab.slots| then i + 1 else i)
    requires next.iters[k] <= end.iters[k] && Grown(end.tab.slots, st.tab.slots)
    requires Increasing(later, next.iters[k], end.iters[k])
    requires forall i | next.iters[k] <= i < end.iters[k] && i < |end.tab.slots|
      && Hits(end.tab.slots[i], pat, false) ::
      Contains(later, i)
    ensures var i := Search(st.tab.slots, st.iters[k], pat, false);
      var hits := (if i < |st.tab.slots| then [Hit(i, st.tab.slots[i])] else []) + later;
      && Increasing(hits, st.iters[k], end.iters[k])
      && forall j | st.iters[k] <= j < end.iters[k] && j < |end.tab.slots| && Hits(end.tab.slots[j], pat, false) ::
        Contains(hits, j)
  {
    var slots, from := st.tab.slots, st.iters[k];
    var i := Search(slots, from, pat, false);
    var hits := (if i < |slots| then [Hit(i, slots[i])] else []) + later;
    assert forall j | from <= j < i && j < |slots| :: Aged(end.tab.slots[j], slots[j]) && !Hits(slots[j], pat, false);
    forall j | from <= j < end.iters[k] && j < |end.tab.slots| && Hits(end.tab.slots[j], pat, false)
      ensures Contains(hits, j)
    {
      if j == i && i < |slots| {
        assert Hit(i, slots[i]) in hits;
      } else {
        var h :| h in later && h.pos == j;
        assert h in hits;
      }
    }
  }

  /** Iterator stability.  Take any run of adds, removals and other iterators, after which a fresh iterator
      finds no more matches.  It has returned each entry at most once and only while it was live, and it
      has returned every matching entry that is live at the end: since removed entries never come back
      while the iterator runs, these are the ones that stayed live since the run began or since they were
      added. */
  lemma IteratorIsStable(st: State, run: seq<Event>, digest: Digest, k: nat, pat: Pattern)
    requires st.Valid() && Runnable(st, run, digest) && k in st.iters && st.iters[k] == 0 && Follows(run, k, pat)
    requires k in After(st, run, digest).iters
    requires var end := After(st, run, digest);
      Search(end.tab.slots, end.iters[k], pat, false) >= |end.tab.slots|
    ensures var end, hits := After(st, run, digest), Returned(st, run, digest, k);
      && (forall i, j | 0 <= i < j < |hits| :: hits[i].pos < hits[j].pos)
      && (forall h | h in hits :: Hits(h.slot, pat, false) && h.pos < |end.tab.slots|
            && Aged(end.tab.slots[h.pos], h.slot))
      && forall i | 0 <= i < |end.tab.slots| && Hits(end.tab.slots[i], pat, false) :: Contains(hits, i)
  {
    IteratorPasses(st, run, digest, k, pat);
  }
}
