/** The triplestore with an index of positions, as its comment describes it (`triplestore-builtin.c:52`): what is
    to be changed so that the index leads to the entries after every run. */
module RepairedIndex {
  import opened Options
  import opened Triples
  import opened IteratorRuns

  /** The index leads to the entry for every id. */
  ghost predicate AllIndexed(tab: Table) {
    tab.Valid() && forall id {:trigger IsIndexed(tab, id)} | id in tab.index :: IsIndexed(tab, id)
  }

  // ----- Adding -----

  /** Each new entry is indexed by its position in the array. */
  function AddAll(tab: Table, batch: seq<NewTriple>, digest: Digest, i: nat): Table
    requires i <= |batch|
    decreases |batch| - i
  {
    if i == |batch| || !batch[i].Complete() then tab
    else AddAll(AddOne(tab, batch[i], digest, |tab.slots|), batch, digest, i + 1)
  }

  lemma AddOneIsIndexed(tab: Table, x: NewTriple, digest: Digest)
    requires AllIndexed(tab) && x.Complete()
    ensures AllIndexed(AddOne(tab, x, digest, |tab.slots|))
  {
    var r := AddOne(tab, x, digest, |tab.slots|);
    AddOneInserts(tab, x, digest, |tab.slots|);
    forall id | id in r.index ensures IsIndexed(r, id) {
      if id in tab.index { assert IsIndexed(tab, id); }
    }
  }

  lemma {:induction false} AddAllIsIndexed(tab: Table, batch: seq<NewTriple>, digest: Digest, i: nat)
    requires AllIndexed(tab) && i <= |batch|
    ensures AllIndexed(AddAll(tab, batch, digest, i))
    decreases |batch| - i
  {
    if i < |batch| && batch[i].Complete() {
      AddOneIsIndexed(tab, batch[i], digest);
      AddAllIsIndexed(AddOne(tab, batch[i], digest, |tab.slots|), batch, digest, i + 1);
    }
  }

  // ----- Removing -----

  /** The index after the last entry has been moved to position n. */
  function Moved(index: map<string, nat>, last: Slot, n: nat): map<string, nat> {
    if last.Live() then index[last.id.value := n] else index
  }

  /** Removes entry n, and notes where the last one is moved to. */
  function TakeOut(tab: Table, n: nat, lazy: bool): Table
    requires n < |tab.slots| && tab.slots[n].Live()
  {
    var last, index := |tab.slots| - 1, tab.index - {tab.slots[n].id.value};
    Table(RemoveAt(tab.slots, n, lazy), if !lazy && n < last then Moved(index, tab.slots[last], n) else index)
  }

  lemma OtherId(slots: seq<Slot>, i: nat, j: nat)
    requires Distinct(slots) && i < |slots| && j < |slots| && i != j && slots[i].Live()
    ensures slots[i].id != slots[j].id
  {
    DistinctIff(slots);
  }

  lemma LiveIsIndexed(tab: Table, n: nat)
    requires AllIndexed(tab) && n < |tab.slots| && tab.slots[n].Live()
    ensures tab.slots[n].id.value in tab.index && tab.index[tab.slots[n].id.value] == n
  {
    var id := tab.slots[n].id.value;
    ContentsAre(tab.slots);
    assert Slot(Some(id), tab.slots[n].t) in tab.slots;
    assert IsIndexed(tab, id);
    if tab.index[id] != n { OtherId(tab.slots, n, tab.index[id]); }
  }

  /** Exactly the triple with the id of entry n is removed. */
  lemma TakeOutIsIndexed(tab: Table, n: nat, lazy: bool)
    requires AllIndexed(tab) && n < |tab.slots| && tab.slots[n].Live()
    ensures AllIndexed(TakeOut(tab, n, lazy))
    ensures Contents(TakeOut(tab, n, lazy).slots) == Contents(tab.slots) - {tab.slots[n].id.value}
  {
    var r, last := TakeOut(tab, n, lazy), |tab.slots| - 1;
    TakeOutIsValid(tab, n, lazy);
    RemovedContents(tab.slots, n, lazy);
    LiveIsIndexed(tab, n);
    if !lazy && tab.slots[last].Live() { LiveIsIndexed(tab, last); }
    forall id | id in r.index ensures IsIndexed(r, id) { assert IsIndexed(tab, id); }
  }

  lemma TakeOutIsValid(tab: Table, n: nat, lazy: bool)
    requires AllIndexed(tab) && n < |tab.slots| && tab.slots[n].Live()
    ensures TakeOut(tab, n, lazy).Valid()
    ensures TakeOut(tab, n, lazy).index.Keys == (tab.index - {tab.slots[n].id.value}).Keys
  {
    var last := |tab.slots| - 1;
    RemoveEntryKeeps(tab, n, lazy);
    if !lazy && n < last && tab.slots[last].Live() {
      LiveIsIndexed(tab, last);
      OtherId(tab.slots, n, last);
    }
  }

  /** The downward scan that removes matching entries. */
  function RemoveAll(tab: Table, i: nat, pat: Pattern, lazy: bool): (r: Table)
    requires i <= |tab.slots|
    ensures r.slots == RemoveBelow(tab.slots, i, pat, lazy)
    decreases i
  {
    if i == 0 then tab
    else if tab.slots[i - 1].Live() && Matches(pat, tab.slots[i - 1].t) then
      RemoveAll(TakeOut(tab, i - 1, lazy), i - 1, pat, lazy)
    else RemoveAll(tab, i - 1, pat, lazy)
  }

  lemma {:induction false} RemoveAllIsIndexed(tab: Table, i: nat, pat: Pattern, lazy: bool)
    requires AllIndexed(tab) && i <= |tab.slots|
    ensures AllIndexed(RemoveAll(tab, i, pat, lazy))
    decreases i
  {
    if i > 0 {
      if tab.slots[i - 1].Live() && Matches(pat, tab.slots[i - 1].t) {
        TakeOutIsIndexed(tab, i - 1, lazy);
        RemoveAllIsIndexed(TakeOut(tab, i - 1, lazy), i - 1, pat, lazy);
      } else {
        RemoveAllIsIndexed(tab, i - 1, pat, lazy);
      }
    }
  }

  /** Removal by id. */
  function RemoveIndexed(tab: Table, id: string, lazy: bool): Table {
    if id in tab.index && tab.index[id] < |tab.slots| && tab.slots[tab.index[id]].Live() then
      TakeOut(tab, tab.index[id], lazy)
    else tab
  }

  /** With such an index removal by id does what it is for. */
  lemma RemoveIndexedRemoves(tab: Table, id: string, lazy: bool)
    requires AllIndexed(tab)
    ensures AllIndexed(RemoveIndexed(tab, id, lazy))
    ensures Contents(RemoveIndexed(tab, id, lazy).slots) == Contents(tab.slots) - {id}
  {
    if id in tab.index {
      assert IsIndexed(tab, id);
      TakeOutIsIndexed(tab, tab.index[id], lazy);
    }
  }

  // ----- Compaction -----

  /** Fills the holes below position i with entries from the end, and notes where these are moved to. */
  function FillTable(tab: Table, i: nat): (r: Table)
    requires i <= |tab.slots|
    ensures r.slots == FillHoles(tab.slots, i)
    decreases i
  {
    if i == 0 then tab
    else if tab.slots[i - 1].Live() then FillTable(tab, i - 1)
    else
      FillTable(Table(RemoveAt(tab.slots, i - 1, false), Moved(tab.index, tab.slots[|tab.slots| - 1], i - 1)), i - 1)
  }

  lemma HoleIsIndexed(tab: Table, n: nat)
    requires AllIndexed(tab) && n + 1 < |tab.slots| && !tab.slots[n].Live()
    ensures AllIndexed(Table(RemoveAt(tab.slots, n, false), Moved(tab.index, tab.slots[|tab.slots| - 1], n)))
  {
    var last := |tab.slots| - 1;
    var r := Table(RemoveAt(tab.slots, n, false), Moved(tab.index, tab.slots[last], n));
    FillKeeps(tab.slots, n);
    SameContents(r.slots, tab.slots);
    if tab.slots[last].Live() { LiveIsIndexed(tab, last); }
    assert r.index.Keys == tab.index.Keys;
    forall id | id in r.index ensures IsIndexed(r, id) { assert IsIndexed(tab, id); }
  }

  lemma RestIsLive(slots: seq<Slot>, n: nat)
    requires n < |slots| && AllLive(slots[n + 1..]) && !slots[n].Live() && slots[|slots| - 1].Live()
    ensures n + 1 < |slots| && AllLive(RemoveAt(slots, n, false)[n..])
    ensures RemoveAt(slots, n, false)[|slots| - 2].Live()
  {
    assert forall j | n + 1 <= j < |slots| :: slots[j] == slots[n + 1..][j - n - 1];
  }

  lemma {:induction false} FillTableIsIndexed(tab: Table, i: nat)
    requires AllIndexed(tab) && i <= |tab.slots| && AllLive(tab.slots[i..])
    requires tab.slots != [] ==> tab.slots[|tab.slots| - 1].Live()
    ensures AllIndexed(FillTable(tab, i))
    decreases i
  {
    if i > 0 {
      if tab.slots[i - 1].Live() {
        assert tab.slots[i - 1..] == [tab.slots[i - 1]] + tab.slots[i..];
        FillTableIsIndexed(tab, i - 1);
      } else {
        HoleIsIndexed(tab, i - 1);
        RestIsLive(tab.slots, i - 1);
        var slots, index := RemoveAt(tab.slots, i - 1, false), Moved(tab.index, tab.slots[|tab.slots| - 1], i - 1);
        FillTableIsIndexed(Table(slots, index), i - 1);
      }
    }
  }

  /** Compaction with updates of the index. */
  function CompactTable(tab: Table): (r: Table)
    ensures r.slots == Compact(tab.slots)
  {
    FillTable(tab.(slots := TrimTail(tab.slots)), |TrimTail(tab.slots)|)
  }

  lemma TrimmedIsIndexed(tab: Table)
    requires AllIndexed(tab)
    ensures AllIndexed(tab.(slots := TrimTail(tab.slots)))
  {
    var r := tab.(slots := TrimTail(tab.slots));
    TrimTailKeeps(tab.slots);
    TrimTailIsDistinct(tab.slots);
    SameContents(r.slots, tab.slots);
    forall id | id in r.index ensures IsIndexed(r, id) {
      assert IsIndexed(tab, id);
      var x := tab.slots[tab.index[id]];
      assert x in r.slots;
      var j: nat :| j < |r.slots| && r.slots[j] == x;
      if j != tab.index[id] { OtherId(tab.slots, j, tab.index[id]); }
    }
  }

  lemma CompactTableIsIndexed(tab: Table)
    requires AllIndexed(tab)
    ensures AllIndexed(CompactTable(tab)) && AllLive(CompactTable(tab).slots)
    ensures Contents(CompactTable(tab).slots) == Contents(tab.slots)
  {
    var trimmed := tab.(slots := TrimTail(tab.slots));
    TrimmedIsIndexed(tab);
    TrimTailKeeps(tab.slots);
    FillTableIsIndexed(trimmed, |trimmed.slots|);
    CompactKeeps(tab.slots);
  }

  // ----- Runs -----

  /** The steps of the store, with this index. */
  function RepairedStep(st: State, e: Event, digest: Digest): State
    requires Enabled(st, e)
  {
    var lazy := st.iters != map[];
    match e
    case Add(batch) => st.(tab := AddAll(st.tab, batch, digest, 0))
    case Remove(pat) => st.(tab := RemoveAll(st.tab, |st.tab.slots|, pat, lazy))
    case RemoveId(id) => st.(tab := RemoveIndexed(st.tab, id, lazy))
    case Open(k) => st.(iters := st.iters[k := 0])
    case Find(k, pat) =>
      var i := Search(st.tab.slots, st.iters[k], pat, false);
      st.(iters := st.iters[k := if i < |st.tab.slots| then i + 1 else i])
    case Release(k) =>
      var iters := st.iters - {k};
      State(if iters == map[] then CompactTable(st.tab) else st.tab, iters)
  }

  predicate RepairedRunnable(st: State, run: seq<Event>, digest: Digest)
    decreases |run|
  {
    run == [] || (Enabled(st, run[0]) && RepairedRunnable(RepairedStep(st, run[0], digest), run[1..], digest))
  }

  function RepairedAfter(st: State, run: seq<Event>, digest: Digest): State
    requires RepairedRunnable(st, run, digest)
    decreases |run|
  {
    if run == [] then st else RepairedAfter(RepairedStep(st, run[0], digest), run[1..], digest)
  }

  lemma StepIsIndexed(st: State, e: Event, digest: Digest)
    requires AllIndexed(st.tab) && Enabled(st, e)
    ensures AllIndexed(RepairedStep(st, e, digest).tab)
  {
    match e
    case Add(batch) => AddAllIsIndexed(st.tab, batch, digest, 0);
    case Remove(pat) => RemoveAllIsIndexed(st.tab, |st.tab.slots|, pat, st.iters != map[]);
    case RemoveId(id) => RemoveIndexedRemoves(st.tab, id, st.iters != map[]);
    case Open(_) =>
    case Find(_, _) =>
    case Release(_) => CompactTableIsIndexed(st.tab);
  }

  /** After every run of adds, removals and iterators the index leads to every entry. */
  lemma {:induction false} RunsKeepIndexed(st: State, run: seq<Event>, digest: Digest)
    requires AllIndexed(st.tab) && RepairedRunnable(st, run, digest)
    ensures AllIndexed(RepairedAfter(st, run, digest).tab)
    decreases |run|
  {
    if run != [] {
      StepIsIndexed(st, run[0], digest);
      RunsKeepIndexed(RepairedStep(st, run[0], digest), run[1..], digest);
    }
  }

  // ----- What stays the same -----

  lemma {:induction false} AddsSame(a: Table, b: Table, batch: seq<NewTriple>, digest: Digest, i: nat)
    requires a.Valid() && b.Valid() && a.slots == b.slots && i <= |batch|
    ensures AddFrom(a, batch, digest, i).slots == AddAll(b, batch, digest, i).slots
    decreases |batch| - i
  {
    if i < |batch| && batch[i].Complete() {
      AddOneInserts(a, batch[i], digest, i);
      AddOneInserts(b, batch[i], digest, |b.slots|);
      AddsSame(AddOne(a, batch[i], digest, i), AddOne(b, batch[i], digest, |b.slots|), batch, digest, i + 1);
    }
  }

  /** The same entries at the same positions, and the same iterators. */
  ghost predicate SameEntries(a: State, b: State) {
    a.Valid() && b.Valid() && AllIndexed(b.tab) && a.tab.slots == b.tab.slots && a.iters == b.iters
  }

  lemma StepsSame(a: State, b: State, e: Event, digest: Digest)
    requires SameEntries(a, b) && Enabled(a, e) && !e.RemoveId?
    ensures SameEntries(Step(a, e, digest), RepairedStep(b, e, digest))
  {
    StepKeepsValid(a, e, digest);
    StepIsIndexed(b, e, digest);
    if e.Add? { AddsSame(a.tab, b.tab, e.batch, digest, 0); }
  }

  /** In runs without removals by id both stores have the same entries at the same positions. */
  lemma {:induction false} RunsSame(a: State, b: State, run: seq<Event>, digest: Digest)
    requires SameEntries(a, b) && Runnable(a, run, digest) && forall e | e in run :: !e.RemoveId?
    ensures RepairedRunnable(b, run, digest)
    ensures SameEntries(After(a, run, digest), RepairedAfter(b, run, digest))
    decreases |run|
  {
    if run != [] {
      assert run[0] in run && forall e | e in run[1..] :: e in run;
      StepsSame(a, b, run[0], digest);
      RunsSame(Step(a, run[0], digest), RepairedStep(b, run[0], digest), run[1..], digest);
    }
  }
}
