/** Moving snapshots between memory and storage (`dlite-entity.c`): what pushing and pulling keeps. */
module PushPull {
  import opened Options
  import opened SnapshotChains
  import opened Transactions
  import opened Snapshots

  // ----- Pulling -----

  function FromStorage(x: Hashed): Node {
    Node(x.data, if x.link.Some? then Some(Link(x.link.value.uuid, x.link.value.hash, false)) else None, true, 1)
  }

  /** A reference to the stored instance q, which is loaded unless it is in memory. */
  ghost function Loaded(w: World, q: Uuid, digest: Digest): (r: World)
    requires w.Valid(digest) && q in w.storage
    ensures r.Valid(digest) && r.storage == w.storage && r.rank == w.rank && r.Holds(q)
    ensures r.nodes.Keys == w.nodes.Keys + {q} && r.nodes[q].frozen && r.nodes[q].ToHashed() == w.storage[q]
    ensures forall v | v in w.nodes && v != q :: r.nodes[v] == w.nodes[v]
    ensures q in w.nodes ==> q in w.held && SameButRefs(r.nodes[q], w.nodes[q])
    ensures r.held == w.held[q := if q in w.nodes then w.held[q] + 1 else 1]
  {
    if q in w.nodes then
      assert CountOk(w.nodes, w.held, q) && Agrees(w.nodes[q], w.storage, q);
      RecountKeeps(w, q, 1, digest);
      Recounted(w, q, 1)
    else
      assert StoredLinkOk(w.storage, w.rank, digest, q);
      AddKeeps(w, q, FromStorage(w.storage[q]), digest);
      Added(w, q, FromStorage(w.storage[q]))
  }

  /** One step of pulling: the parent of u is loaded and the pointer to it is set. */
  ghost function Pulled(w: World, u: Uuid, digest: Digest): (r: World)
    requires w.Valid(digest) && u in w.nodes && w.nodes[u].link.Some? && !w.nodes[u].link.value.loaded
    ensures r.Valid(digest) && r.storage == w.storage && r.rank == w.rank
    ensures u in r.nodes && r.nodes[u].link == Some(w.nodes[u].link.value.(loaded := true))
    ensures r.nodes.Keys == w.nodes.Keys + {w.nodes[u].link.value.uuid}
  {
    UnloadedIsStored(w, u, digest);
    var l := w.nodes[u].link.value;
    var w1 := Loaded(w, l.uuid, digest);
    assert LinkOk(w.nodes, w.storage, w.rank, digest, u);
    RepointKeeps(w1, u, Some(l.(loaded := true)), digest);
    Repointed(w1, u, Some(l.(loaded := true)))
  }

  lemma PutSameView(w: World, u: Uuid, n: Node)
    requires u in w.nodes && n.ToHashed() == w.nodes[u].ToHashed()
    ensures w.(nodes := w.nodes[u := n]).Retrievable() == w.Retrievable()
  {
    RetrievablePut(w, u, n);
    assert w.Retrievable()[u] == n.ToHashed();
  }

  lemma LoadedKeepsView(w: World, q: Uuid, digest: Digest)
    requires w.Valid(digest) && q in w.storage
    ensures Loaded(w, q, digest).Retrievable() == w.Retrievable()
  {
    if q in w.nodes { assert Agrees(w.nodes[q], w.storage, q); }
    assert Loaded(w, q, digest).nodes == w.nodes[q := Loaded(w, q, digest).nodes[q]];
    RetrievablePut(w, q, Loaded(w, q, digest).nodes[q]);
    assert w.Retrievable()[q] == w.storage[q];
  }

  /** Pulling changes no references that are held. */
  lemma PulledKeepsHeld(w: World, u: Uuid, digest: Digest)
    requires w.Valid(digest) && u in w.nodes && w.nodes[u].link.Some? && !w.nodes[u].link.value.loaded
    ensures forall v | v in w.nodes && v in w.held ::
      v in Pulled(w, u, digest).held && Pulled(w, u, digest).held[v] == w.held[v]
  {
    UnloadedIsStored(w, u, digest);
  }

  /** Pulling changes nothing that can be retrieved. */
  lemma PulledKeepsView(w: World, u: Uuid, digest: Digest)
    requires w.Valid(digest) && u in w.nodes && w.nodes[u].link.Some? && !w.nodes[u].link.value.loaded
    ensures Pulled(w, u, digest).Retrievable() == w.Retrievable()
  {
    UnloadedIsStored(w, u, digest);
    var l := w.nodes[u].link.value;
    LoadedKeepsView(w, l.uuid, digest);
    var w1 := Loaded(w, l.uuid, digest);
    var n := w1.nodes[u].(link := Some(l.(loaded := true)));
    PutSameView(w1, u, n);
    assert Pulled(w, u, digest).nodes == w1.nodes[u := n];
  }

  // ----- Pushing -----

  /** The n-th ancestor of u that pointers lead to, counting u itself as number 0. */
  ghost function LoadedAncestor(w: World, u: Uuid, n: nat, digest: Digest): (a: Option<Uuid>)
    requires w.Valid(digest) && u in w.nodes
    ensures a.Some? ==> a.value in w.nodes && w.rank[a.value] <= w.rank[u]
    ensures a.Some? && n > 0 ==> w.rank[a.value] < w.rank[u] && w.nodes[a.value].frozen
    decreases n
  {
    if n == 0 then Some(u)
    else if Pointer(w.nodes[u].link).Some? then
      PointerIsInMemory(w, u, digest);
      LoadedAncestor(w, w.nodes[u].link.value.uuid, n - 1, digest)
    else None
  }

  function Unloaded(link: Link): Link {
    link.(loaded := false)
  }

  /** The parent p of u is saved, and the pointer to it is given up. */
  ghost function PushedOne(w: World, u: Uuid, p: Uuid, digest: Digest): (r: World)
    requires w.Valid(digest) && u in w.nodes && w.nodes[u].PointsTo(p) && p in w.nodes && Pointer(w.nodes[p].link).None?
    ensures r.Valid(digest) && r.rank == w.rank && r.storage == w.storage[p := w.nodes[p].ToHashed()]
    ensures u in r.nodes && r.nodes[u] == w.nodes[u].(link := Some(Unloaded(w.nodes[u].link.value)))
    ensures forall v | v in w.nodes && w.rank[v] > w.rank[u] :: v in r.nodes && r.nodes[v] == w.nodes[v]
    ensures Shrunk(w.(nodes := w.nodes[u := r.nodes[u]]), r)
    ensures forall v | v in w.nodes && v != p :: v in r.nodes
  {
    PointerIsInMemory(w, u, digest);
    SaveKeeps(w, p, digest);
    var w1 := Saved(w, p);
    var link := Some(Unloaded(w.nodes[u].link.value));
    assert LinkOk(w.nodes, w.storage, w.rank, digest, u);
    RepointKeeps(w1, u, link, digest);
    var w2 := Repointed(w1, u, link);
    DecRefShrinks(w2, p, digest);
    DecRef(w2, p, digest)
  }

  /** dlite_instance_push_snapshot() for a storage with support for transactions in which saving the
      instances in fails goes wrong: the world afterwards, the status and the instances saved, in order. */
  ghost function Push(w: World, u: Uuid, n: int, fails: set<Uuid>, digest: Digest): (r: (World, nat, seq<Uuid>))
    requires w.Valid(digest) && u in w.nodes
    ensures r.0.Valid(digest) && r.0.rank == w.rank
    ensures u in r.0.nodes && r.0.nodes[u].frozen == w.nodes[u].frozen
      && r.0.nodes[u].ToHashed() == w.nodes[u].ToHashed()
    ensures r.1 == 0 && n <= 0 ==> Pointer(r.0.nodes[u].link).None?
    ensures !(r.1 == 0 && n <= 0) ==> r.0.nodes[u].link == w.nodes[u].link
    ensures forall v | v in w.nodes && w.rank[v] > w.rank[u] :: v in r.0.nodes && r.0.nodes[v] == w.nodes[v]
    decreases w.rank[u]
  {
    if Pointer(w.nodes[u].link).None? then (w, 0, [])
    else
      PointerIsInMemory(w, u, digest);
      var p := w.nodes[u].link.value.uuid;
      var (w1, m, saved) := Push(w, p, n - 1, fails, digest);
      if m > 0 then (w1, m + 1, saved)
      else if n > 0 then (w1, 0, saved)
      else if p in fails then (w1, 1, saved)
      else (PushedOne(w1, u, p, digest), 0, saved + [p])
  }

  /** Nodes that are gone are in the storage, unchanged. */
  lemma ShrunkKeepsView(w: World, r: World)
    requires Shrunk(w, r) && r.storage == w.storage
    requires forall v | v in w.nodes && v !in r.nodes :: v in w.storage && w.storage[v] == w.nodes[v].ToHashed()
    ensures r.Retrievable() == w.Retrievable()
  {
    forall v | v in r.nodes ensures r.nodes[v].ToHashed() == w.nodes[v].ToHashed() {
      assert SameButRefs(r.nodes[v], w.nodes[v]);
    }
  }

  lemma PushedOneKeepsView(w: World, u: Uuid, p: Uuid, digest: Digest)
    requires w.Valid(digest) && u in w.nodes && w.nodes[u].PointsTo(p) && p in w.nodes && Pointer(w.nodes[p].link).None?
    ensures PushedOne(w, u, p, digest).Retrievable() == w.Retrievable()
  {
    PointerIsInMemory(w, u, digest);
    SaveKeeps(w, p, digest);
    var w1, r := Saved(w, p), PushedOne(w, u, p, digest);
    PutSameView(w1, u, r.nodes[u]);
    ShrunkKeepsView(w1.(nodes := w1.nodes[u := r.nodes[u]]), r);
  }

  /** Pushing changes nothing that can be retrieved, whether it fails or not. */
  lemma {:induction false} PushKeepsView(w: World, u: Uuid, n: int, fails: set<Uuid>, digest: Digest)
    requires w.Valid(digest) && u in w.nodes
    ensures Push(w, u, n, fails, digest).0.Retrievable() == w.Retrievable()
    decreases w.rank[u]
  {
    if Pointer(w.nodes[u].link).Some? {
      PointerIsInMemory(w, u, digest);
      var p := w.nodes[u].link.value.uuid;
      PushKeepsView(w, p, n - 1, fails, digest);
      var (w1, m, saved) := Push(w, p, n - 1, fails, digest);
      if m == 0 && n <= 0 && p !in fails { PushedOneKeepsView(w1, u, p, digest); }
    }
  }

  /** A storage after some instances have been saved. */
  function Stored(storage: View, view: View, saved: seq<Uuid>): View {
    storage + map v | v in saved && v in view :: view[v]
  }

  lemma StoredOneMore(storage: View, view: View, saved: seq<Uuid>, p: Uuid)
    requires p in view
    ensures Stored(storage, view, saved + [p]) == Stored(storage, view, saved)[p := view[p]]
  {}

  /** The parent p is saved after the others. */
  lemma StoresParent(w: World, w1: World, storage: View, saved: seq<Uuid>, p: Uuid)
    requires p in w.nodes && p in w1.nodes && w1.nodes[p].ToHashed() == w.nodes[p].ToHashed()
    requires w1.storage == Stored(storage, w.Retrievable(), saved)
    ensures w1.storage[p := w1.nodes[p].ToHashed()] == Stored(storage, w.Retrievable(), saved + [p])
  {
    assert w.Retrievable()[p] == w.nodes[p].ToHashed();
    StoredOneMore(storage, w.Retrievable(), saved, p);
  }

  lemma {:induction false} PushStores(w: World, u: Uuid, n: int, fails: set<Uuid>, digest: Digest)
    requires w.Valid(digest) && u in w.nodes
    ensures var (r, m, saved) := Push(w, u, n, fails, digest); r.storage == Stored(w.storage, w.Retrievable(), saved)
    decreases w.rank[u]
  {
    if Pointer(w.nodes[u].link).Some? {
      PointerIsInMemory(w, u, digest);
      var p := w.nodes[u].link.value.uuid;
      PushStores(w, p, n - 1, fails, digest);
      var (w1, m, saved) := Push(w, p, n - 1, fails, digest);
      StoresParent(w, w1, w.storage, saved, p);
    }
  }

  /** Numbers of the snapshots that are pushed when the status is m. */
  function PushedFrom(n: int, m: nat): nat {
    if n > m then n else m
  }

  /** The status of a push and the instances saved, by the chain as it is before. */
  ghost function Saves(w: World, u: Uuid, n: int, fails: set<Uuid>, digest: Digest): (r: (nat, seq<Uuid>))
    requires w.Valid(digest) && u in w.nodes
    ensures forall v | v in r.1 :: v in w.rank && w.rank[v] < w.rank[u]
    decreases w.rank[u]
  {
    if Pointer(w.nodes[u].link).None? then (0, [])
    else
      PointerIsInMemory(w, u, digest);
      var p := w.nodes[u].link.value.uuid;
      var (m, saved) := Saves(w, p, n - 1, fails, digest);
      if m > 0 then (m + 1, saved)
      else if n > 0 then (0, saved)
      else if p in fails then (1, saved)
      else (0, saved + [p])
  }

  lemma {:induction false} PushSaves(w: World, u: Uuid, n: int, fails: set<Uuid>, digest: Digest)
    requires w.Valid(digest) && u in w.nodes
    ensures var (r, m, saved) := Push(w, u, n, fails, digest); (m, saved) == Saves(w, u, n, fails, digest)
    decreases w.rank[u]
  {
    if Pointer(w.nodes[u].link).Some? {
      PointerIsInMemory(w, u, digest);
      PushSaves(w, w.nodes[u].link.value.uuid, n - 1, fails, digest);
    }
  }

  lemma {:induction false} SavesStatus(w: World, u: Uuid, n: int, fails: set<Uuid>, digest: Digest, i: nat)
    requires w.Valid(digest) && u in w.nodes
    ensures var (m, saved) := Saves(w, u, n, fails, digest); var a := LoadedAncestor(w, u, i, digest);
      && (a.Some? ==> (a.value in saved <==> i > PushedFrom(n, m)))
      && (a.Some? && a.value in saved ==> a.value !in fails)
      && (m > 0 && i == m ==> m > n && a.Some? && a.value in fails)
    decreases w.rank[u]
  {
    if Pointer(w.nodes[u].link).Some? {
      PointerIsInMemory(w, u, digest);
      SavesStatus(w, w.nodes[u].link.value.uuid, n - 1, fails, digest, if i > 0 then i - 1 else 0);
    }
  }

  /** The ancestors in memory beyond number n are saved unless the status m is positive; then m is the
      number of the one that failed, and those beyond it are saved. Nothing else is. */
  lemma PushStatus(w: World, u: Uuid, n: int, fails: set<Uuid>, digest: Digest, i: nat)
    requires w.Valid(digest) && u in w.nodes
    ensures var (r, m, saved) := Push(w, u, n, fails, digest); var a := LoadedAncestor(w, u, i, digest);
      && (a.Some? ==> (a.value in saved <==> i > PushedFrom(n, m)))
      && (a.Some? && a.value in saved ==> a.value !in fails)
      && (m > 0 && i == m ==> m > n && a.Some? && a.value in fails)
  {
    PushSaves(w, u, n, fails, digest);
    SavesStatus(w, u, n, fails, digest, i);
  }

  /** All but the last save are those of the push of the parent. */
  lemma EarlierSaves(w: World, u: Uuid, n: int, fails: set<Uuid>, digest: Digest, k: nat)
    requires w.Valid(digest) && u in w.nodes && k < |Saves(w, u, n, fails, digest).1|
    ensures w.nodes[u].link.Some?
    ensures var p := w.nodes[u].link.value.uuid;
      && p in w.nodes && w.rank[p] < w.rank[u]
      && k <= |Saves(w, p, n - 1, fails, digest).1|
      && Saves(w, u, n, fails, digest).1[..k] == Saves(w, p, n - 1, fails, digest).1[..k]
  {
    PointerIsInMemory(w, u, digest);
  }

  lemma {:induction false} SavesKeepClosed(w: World, u: Uuid, n: int, fails: set<Uuid>, digest: Digest, k: nat)
    requires w.Valid(digest) && u in w.nodes && k <= |Saves(w, u, n, fails, digest).1|
    ensures Closed(Stored(w.storage, w.Retrievable(), Saves(w, u, n, fails, digest).1[..k]), w.rank, digest)
    decreases w.rank[u]
  {
    var saved := Saves(w, u, n, fails, digest).1;
    if k == |saved| {
      PushSaves(w, u, n, fails, digest);
      PushStores(w, u, n, fails, digest);
      assert saved[..k] == saved;
    } else {
      EarlierSaves(w, u, n, fails, digest, k);
      SavesKeepClosed(w, w.nodes[u].link.value.uuid, n - 1, fails, digest, k);
    }
  }

  /** After every single save, also when a later one fails, every stored instance has its parent stored, with
      the hash that it refers to. */
  lemma EverySaveKeepsClosed(w: World, u: Uuid, n: int, fails: set<Uuid>, digest: Digest, k: nat)
    requires w.Valid(digest) && u in w.nodes && k <= |Push(w, u, n, fails, digest).2|
    ensures Closed(Stored(w.storage, w.Retrievable(), Push(w, u, n, fails, digest).2[..k]), w.rank, digest)
  {
    PushSaves(w, u, n, fails, digest);
    SavesKeepClosed(w, u, n, fails, digest, k);
  }

  lemma StoredIsRetrieved(w: World, x: Uuid, digest: Digest)
    requires w.Valid(digest) && x in w.storage
    ensures x in w.Retrievable() && w.Retrievable()[x] == w.storage[x]
  {
    if x in w.nodes { assert Agrees(w.nodes[x], w.storage, x); }
  }

  /** The ancestors of a stored instance are stored. */
  lemma {:induction false} StoredChain(w: World, x: Uuid, i: nat, digest: Digest)
    requires w.Valid(digest) && x in w.storage
    ensures x in w.Retrievable()
    ensures Ancestor(w.Retrievable(), x, i).Some? ==> Ancestor(w.Retrievable(), x, i).value in w.storage
    decreases i
  {
    StoredIsRetrieved(w, x, digest);
    assert StoredLinkOk(w.storage, w.rank, digest, x);
    if i > 0 && w.storage[x].link.Some? { StoredChain(w, w.storage[x].link.value.uuid, i - 1, digest); }
  }

  /** If no pointer to a parent is set, all ancestors are stored. */
  lemma UnloadedChain(w: World, u: Uuid, i: nat, digest: Digest)
    requires w.Valid(digest) && u in w.nodes && Pointer(w.nodes[u].link).None? && i > 0
    ensures Ancestor(w.Retrievable(), u, i).Some? ==>
      var a := Ancestor(w.Retrievable(), u, i).value; a in w.storage && w.storage[a] == w.Retrievable()[a]
  {
    if Ancestor(w.Retrievable(), u, i).Some? {
      UnloadedIsStored(w, u, digest);
      StoredChain(w, w.nodes[u].link.value.uuid, i - 1, digest);
      StoredIsRetrieved(w, Ancestor(w.Retrievable(), u, i).value, digest);
    }
  }

  /** Pushing all the snapshots of an instance, without a failure, leaves all of them in the storage, and its
      chain, pulled back, has the same content. */
  lemma PushedChainIsSame(w: World, u: Uuid, fails: set<Uuid>, digest: Digest, i: nat)
    requires w.Valid(digest) && u in w.nodes && Push(w, u, 0, fails, digest).1 == 0
    ensures var r := Push(w, u, 0, fails, digest).0;
      Ancestor(r.Retrievable(), u, i) == Ancestor(w.Retrievable(), u, i)
    ensures i > 0 && Ancestor(w.Retrievable(), u, i).Some? ==>
      var r, a := Push(w, u, 0, fails, digest).0, Ancestor(w.Retrievable(), u, i).value;
      a in r.storage && r.storage[a] == w.Retrievable()[a]
  {
    PushKeepsView(w, u, 0, fails, digest);
    var r := Push(w, u, 0, fails, digest).0;
    assert r.Retrievable() == w.Retrievable();
    if i > 0 { UnloadedChain(r, u, i, digest); }
  }
}
