/** Transactions (`dlite-entity.c`): snapshots of an instance, their parent links and reference counts, and
    pushing and pulling them between memory and a storage that keeps instances as they were saved. */
module Transactions {
  import opened Options
  import opened SnapshotChains

  /** Parent of an instance: its uuid and hash, and whether the pointer to it is set. */
  datatype Link = Link(uuid: Uuid, hash: Hash, loaded: bool)

  /** An instance in memory. */
  datatype Node = Node(data: Data, link: Option<Link>, frozen: bool, refs: nat) {
    function ToHashed(): Hashed {
      Hashed(if link.Some? then Some(Ref(link.value.uuid, link.value.hash)) else None, data)
    }

    predicate PointsTo(u: Uuid) {
      Pointer(link) == Some(u)
    }
  }

  type Nodes = map<Uuid, Node>
  type Counts = map<Uuid, nat>

  function Pointer(link: Option<Link>): Option<Uuid> {
    if link.Some? && link.value.loaded then Some(link.value.uuid) else None
  }

  /** Instances in memory and in the storage, the references held outside of the links, and an order in
      which parents come before their children. */
  datatype World = World(nodes: Nodes, storage: View, held: Counts, rank: Counts) {
    /** Everything that can be retrieved; memory is looked up first. */
    function Retrievable(): View {
      storage + map u | u in nodes :: nodes[u].ToHashed()
    }

    ghost predicate Valid(digest: Digest) {
      nodes.Keys <= rank.Keys && Linked(nodes, storage, rank, digest) && Counted(nodes, held)
    }

    /** The caller holds a reference to u. */
    predicate Holds(u: Uuid) {
      u in nodes && u in held && held[u] > 0
    }
  }

  // ----- The invariant -----

  /** A set pointer leads to an immutable instance in memory, and an unset one to the storage; the hash is
      that of the parent. */
  ghost predicate Fits(nodes: Nodes, storage: View, rank: Counts, digest: Digest, link: Option<Link>, child: Uuid) {
    link.Some? ==>
      var l := link.value;
      && l.uuid in rank && child in rank && rank[l.uuid] < rank[child]
      && if l.loaded then l.uuid in nodes && nodes[l.uuid].frozen && digest(nodes[l.uuid].ToHashed()) == l.hash
         else l.uuid in storage && digest(storage[l.uuid]) == l.hash
  }

  ghost predicate LinkOk(nodes: Nodes, storage: View, rank: Counts, digest: Digest, v: Uuid)
    requires v in nodes
  {
    Fits(nodes, storage, rank, digest, nodes[v].link, v)
  }

  /** The parent of a stored instance is stored, too. */
  ghost predicate StoredLinkOk(storage: View, rank: Counts, digest: Digest, v: Uuid)
    requires v in storage
  {
    v in rank && (storage[v].link.Some? ==>
      var r := storage[v].link.value;
      && r.uuid in storage && digest(storage[r.uuid]) == r.hash
      && r.uuid in rank && rank[r.uuid] < rank[v])
  }

  /** What is both in memory and in the storage is immutable and the same. */
  ghost predicate Agrees(n: Node, storage: View, v: Uuid) {
    v in storage ==> n.frozen && n.ToHashed() == storage[v]
  }

  /** Every stored instance has its ancestors stored. */
  ghost predicate Closed(storage: View, rank: Counts, digest: Digest) {
    forall v {:trigger StoredLinkOk(storage, rank, digest, v)} | v in storage :: StoredLinkOk(storage, rank, digest, v)
  }

  ghost predicate Linked(nodes: Nodes, storage: View, rank: Counts, digest: Digest) {
    && Closed(storage, rank, digest)
    && (forall v {:trigger LinkOk(nodes, storage, rank, digest, v)} | v in nodes ::
      LinkOk(nodes, storage, rank, digest, v))
    && (forall v {:trigger Agrees(nodes[v], storage, v)} | v in nodes :: Agrees(nodes[v], storage, v))
  }

  function Referrers(nodes: Nodes, u: Uuid): set<Uuid> {
    set v | v in nodes && nodes[v].PointsTo(u)
  }

  /** Reference counts are positive and count the references held outside and the pointers to the node. */
  ghost predicate CountOk(nodes: Nodes, held: Counts, v: Uuid)
    requires v in nodes
  {
    v in held && nodes[v].refs == held[v] + |Referrers(nodes, v)| && nodes[v].refs > 0
  }

  ghost predicate Counted(nodes: Nodes, held: Counts) {
    forall v {:trigger CountOk(nodes, held, v)} | v in nodes :: CountOk(nodes, held, v)
  }

  // ----- Consequences -----

  lemma PointerIsInMemory(w: World, u: Uuid, digest: Digest)
    requires w.Valid(digest) && u in w.nodes && Pointer(w.nodes[u].link).Some?
    ensures var p := Pointer(w.nodes[u].link).value;
      p != u && p in w.nodes && p in w.held && w.nodes[p].frozen && u in Referrers(w.nodes, p)
      && u in w.rank && p in w.rank && w.rank[p] < w.rank[u]
  {
    assert LinkOk(w.nodes, w.storage, w.rank, digest, u);
    assert CountOk(w.nodes, w.held, w.nodes[u].link.value.uuid);
  }

  lemma UnloadedIsStored(w: World, u: Uuid, digest: Digest)
    requires w.Valid(digest) && u in w.nodes && w.nodes[u].link.Some? && !w.nodes[u].link.value.loaded
    ensures var q := w.nodes[u].link.value.uuid; q != u && q in w.storage
  {
    assert LinkOk(w.nodes, w.storage, w.rank, digest, u);
  }

  /** Nobody has u as its parent. */
  ghost predicate Childless(w: World, u: Uuid) {
    && (forall v | v in w.nodes && w.nodes[v].link.Some? :: w.nodes[v].link.value.uuid != u)
    && forall v | v in w.storage && w.storage[v].link.Some? :: w.storage[v].link.value.uuid != u
  }

  /** A node that may be changed is nobody's parent and not in the storage; nor is one that does not exist. */
  lemma MutableIsHead(w: World, u: Uuid, digest: Digest)
    requires w.Valid(digest) && if u in w.nodes then !w.nodes[u].frozen else u !in w.storage
    ensures Childless(w, u) && u !in w.storage && Referrers(w.nodes, u) == {}
  {
    if u in w.nodes { assert Agrees(w.nodes[u], w.storage, u); }
    forall v | v in w.nodes && w.nodes[v].link.Some? ensures w.nodes[v].link.value.uuid != u {
      assert LinkOk(w.nodes, w.storage, w.rank, digest, v);
    }
    forall v | v in w.storage && w.storage[v].link.Some? ensures w.storage[v].link.value.uuid != u {
      assert StoredLinkOk(w.storage, w.rank, digest, v);
    }
  }

  lemma AbsentHasNoReferrers(w: World, q: Uuid, digest: Digest)
    requires w.Valid(digest) && q !in w.nodes
    ensures Referrers(w.nodes, q) == {}
  {
    forall v | v in w.nodes ensures !w.nodes[v].PointsTo(q) {
      assert LinkOk(w.nodes, w.storage, w.rank, digest, v);
    }
  }

  // ----- Replacing or adding one node -----

  /** The node n may stand for u: if u exists and is immutable, neither its content nor that changes. */
  ghost predicate Compatible(w: World, u: Uuid, n: Node) {
    && (u in w.nodes && w.nodes[u].frozen ==> n.frozen && n.ToHashed() == w.nodes[u].ToHashed())
    && Agrees(n, w.storage, u)
  }

  lemma PutKeepsLinks(w: World, u: Uuid, n: Node, digest: Digest)
    requires Linked(w.nodes, w.storage, w.rank, digest) && u in w.rank && Compatible(w, u, n)
    requires Fits(w.nodes, w.storage, w.rank, digest, n.link, u)
    ensures Linked(w.nodes[u := n], w.storage, w.rank, digest)
  {
    var nodes := w.nodes[u := n];
    forall v | v in nodes ensures LinkOk(nodes, w.storage, w.rank, digest, v) {
      assert v != u ==> LinkOk(w.nodes, w.storage, w.rank, digest, v);
    }
    forall v | v in nodes ensures Agrees(nodes[v], w.storage, v) {
      assert v != u ==> Agrees(w.nodes[v], w.storage, v);
    }
  }

  function One(b: bool): nat {
    if b then 1 else 0
  }

  /** 1 if u points to v. */
  function Points(nodes: Nodes, u: Uuid, v: Uuid): nat {
    One(u in nodes && nodes[u].PointsTo(v))
  }

  lemma ReferrersAfterPut(nodes: Nodes, u: Uuid, n: Node, v: Uuid)
    ensures |Referrers(nodes[u := n], v)| == |Referrers(nodes, v)| - Points(nodes, u, v) + One(n.PointsTo(v))
  {
    var rest := Referrers(nodes, v) - {u};
    assert Referrers(nodes, v) == if u in nodes && nodes[u].PointsTo(v) then rest + {u} else rest;
    assert Referrers(nodes[u := n], v) == if n.PointsTo(v) then rest + {u} else rest;
  }

  lemma PutKeepsCounts(nodes: Nodes, held: Counts, u: Uuid, n: Node, after: Counts)
    requires Counted(nodes, held)
    requires forall v | v in nodes && v != u ::
      v in held && v in after && after[v] + One(n.PointsTo(v)) == held[v] + Points(nodes, u, v)
    requires !n.PointsTo(u) && (u in nodes ==> !nodes[u].PointsTo(u))
    requires u in after && n.refs == after[u] + |Referrers(nodes, u)| && n.refs > 0
    ensures Counted(nodes[u := n], after)
  {
    var next := nodes[u := n];
    forall v | v in next ensures CountOk(next, after, v) {
      ReferrersAfterPut(nodes, u, n, v);
      assert v != u ==> CountOk(nodes, held, v);
    }
  }

  // ----- Steps -----

  /** The reference that a pointer was becomes one that is held outside. */
  function Returned(held: Counts, link: Option<Link>): Counts {
    if Pointer(link).Some? && Pointer(link).value in held
    then held[link.value.uuid := held[link.value.uuid] + 1] else held
  }

  /** A reference held outside becomes a pointer. */
  function Taken(held: Counts, link: Option<Link>): Counts
    requires Pointer(link).Some? ==> link.value.uuid in held && held[link.value.uuid] > 0
  {
    if Pointer(link).Some? then held[link.value.uuid := held[link.value.uuid] - 1] else held
  }

  /** The count of u and the references held change by d. */
  function Recounted(w: World, u: Uuid, d: int): World
    requires u in w.nodes && u in w.held && w.held[u] + d >= 0 && w.nodes[u].refs + d > 0
  {
    w.(nodes := w.nodes[u := w.nodes[u].(refs := w.nodes[u].refs + d)], held := w.held[u := w.held[u] + d])
  }

  lemma RecountKeeps(w: World, u: Uuid, d: int, digest: Digest)
    requires w.Valid(digest) && u in w.nodes && u in w.held && w.held[u] + d >= 0 && w.nodes[u].refs + d > 0
    ensures Recounted(w, u, d).Valid(digest)
  {
    var n := w.nodes[u].(refs := w.nodes[u].refs + d);
    assert LinkOk(w.nodes, w.storage, w.rank, digest, u) && Agrees(w.nodes[u], w.storage, u)
      && CountOk(w.nodes, w.held, u);
    PutKeepsLinks(w, u, n, digest);
    HeldIsKnown(w, digest);
    PutKeepsCounts(w.nodes, w.held, u, n, w.held[u := w.held[u] + d]);
  }

  lemma HeldIsKnown(w: World, digest: Digest)
    requires w.Valid(digest)
    ensures forall v | v in w.nodes :: v in w.held && !w.nodes[v].PointsTo(v)
  {
    forall v | v in w.nodes ensures v in w.held && !w.nodes[v].PointsTo(v) {
      assert CountOk(w.nodes, w.held, v) && LinkOk(w.nodes, w.storage, w.rank, digest, v);
    }
  }

  /** The values and the immutable flag of u change. */
  function Changed(w: World, u: Uuid, data: Data, frozen: bool): World
    requires u in w.nodes
  {
    w.(nodes := w.nodes[u := w.nodes[u].(data := data, frozen := frozen)])
  }

  lemma ChangeKeeps(w: World, u: Uuid, data: Data, frozen: bool, digest: Digest)
    requires w.Valid(digest) && u in w.nodes && !w.nodes[u].frozen
    ensures Changed(w, u, data, frozen).Valid(digest)
  {
    var n := w.nodes[u].(data := data, frozen := frozen);
    MutableIsHead(w, u, digest);
    assert LinkOk(w.nodes, w.storage, w.rank, digest, u) && CountOk(w.nodes, w.held, u);
    PutKeepsLinks(w, u, n, digest);
    HeldIsKnown(w, digest);
    PutKeepsCounts(w.nodes, w.held, u, n, w.held);
  }

  /** The link of u changes: a former pointer becomes a reference held outside, and one that is held
      becomes the new pointer. */
  function Repointed(w: World, u: Uuid, link: Option<Link>): World
    requires u in w.nodes
    requires Pointer(link).Some? ==> w.Holds(link.value.uuid)
  {
    w.(nodes := w.nodes[u := w.nodes[u].(link := link)], held := Taken(Returned(w.held, w.nodes[u].link), link))
  }

  lemma RepointKeeps(w: World, u: Uuid, link: Option<Link>, digest: Digest)
    requires w.Valid(digest) && u in w.nodes && Fits(w.nodes, w.storage, w.rank, digest, link, u)
    requires Pointer(link).Some? ==> w.Holds(link.value.uuid)
    requires w.nodes[u].frozen ==> w.nodes[u].(link := link).ToHashed() == w.nodes[u].ToHashed()
    ensures Repointed(w, u, link).Valid(digest)
  {
    var n := w.nodes[u].(link := link);
    assert LinkOk(w.nodes, w.storage, w.rank, digest, u) && Agrees(w.nodes[u], w.storage, u)
      && CountOk(w.nodes, w.held, u);
    PutKeepsLinks(w, u, n, digest);
    HeldIsKnown(w, digest);
    PutKeepsCounts(w.nodes, w.held, u, n, Taken(Returned(w.held, w.nodes[u].link), link));
  }

  /** A new node; the reference that its pointer is has been held outside. */
  function Added(w: World, u: Uuid, n: Node): World
    requires Pointer(n.link).Some? ==> w.Holds(n.link.value.uuid)
  {
    w.(nodes := w.nodes[u := n], held := Taken(w.held, n.link)[u := n.refs])
  }

  lemma AddKeeps(w: World, u: Uuid, n: Node, digest: Digest)
    requires w.Valid(digest) && u !in w.nodes && u in w.rank && n.refs > 0
    requires Agrees(n, w.storage, u) && Fits(w.nodes, w.storage, w.rank, digest, n.link, u)
    requires Pointer(n.link).Some? ==> w.Holds(n.link.value.uuid)
    ensures Added(w, u, n).Valid(digest)
  {
    PutKeepsLinks(w, u, n, digest);
    HeldIsKnown(w, digest);
    AbsentHasNoReferrers(w, u, digest);
    PutKeepsCounts(w.nodes, w.held, u, n, Taken(w.held, n.link)[u := n.refs]);
  }

  /** A node without children may be moved in the order. */
  function Ranked(w: World, u: Uuid, r: nat): World {
    w.(rank := w.rank[u := r])
  }

  lemma RankKeeps(w: World, u: Uuid, r: nat, digest: Digest)
    requires w.Valid(digest) && Childless(w, u) && u !in w.storage
    requires u in w.nodes ==> r >= w.rank[u]
    ensures Ranked(w, u, r).Valid(digest)
  {
    var rank := w.rank[u := r];
    forall v | v in w.nodes ensures LinkOk(w.nodes, w.storage, rank, digest, v) {
      assert LinkOk(w.nodes, w.storage, w.rank, digest, v);
    }
    forall v | v in w.storage ensures StoredLinkOk(w.storage, rank, digest, v) {
      assert StoredLinkOk(w.storage, w.rank, digest, v);
    }
    forall v | v in w.nodes ensures Agrees(w.nodes[v], w.storage, v) {}
  }

  /** The node u is freed; the reference that its pointer was is still to be given up. */
  function Freed(w: World, u: Uuid): World
    requires u in w.nodes
  {
    w.(nodes := w.nodes - {u}, held := Returned(w.held[u := 0], w.nodes[u].link))
  }

  lemma FreeKeeps(w: World, u: Uuid, digest: Digest)
    requires w.Valid(digest) && w.Holds(u) && w.nodes[u].refs == 1
    ensures Freed(w, u).Valid(digest)
  {
    var nodes := w.nodes - {u};
    assert CountOk(w.nodes, w.held, u);
    assert Referrers(w.nodes, u) == {};
    forall v | v in nodes ensures LinkOk(nodes, w.storage, w.rank, digest, v) && Agrees(nodes[v], w.storage, v) {
      assert LinkOk(w.nodes, w.storage, w.rank, digest, v) && Agrees(w.nodes[v], w.storage, v);
      assert v !in Referrers(w.nodes, u);
    }
    FreeKeepsCounts(w, u, digest);
  }

  lemma FreeKeepsCounts(w: World, u: Uuid, digest: Digest)
    requires w.Valid(digest) && w.Holds(u)
    ensures Counted(w.nodes - {u}, Freed(w, u).held)
  {
    var nodes := w.nodes - {u};
    HeldIsKnown(w, digest);
    forall v | v in nodes ensures CountOk(nodes, Freed(w, u).held, v) {
      assert Referrers(nodes, v) == Referrers(w.nodes, v) - {u};
      assert CountOk(w.nodes, w.held, v);
    }
  }

  /** An immutable node is saved. */
  function Saved(w: World, p: Uuid): World
    requires p in w.nodes
  {
    w.(storage := w.storage[p := w.nodes[p].ToHashed()])
  }

  /** Saving is safe once the parent is in the storage. */
  lemma SaveKeeps(w: World, p: Uuid, digest: Digest)
    requires w.Valid(digest) && p in w.nodes && w.nodes[p].frozen && Pointer(w.nodes[p].link).None?
    ensures Saved(w, p).Valid(digest) && Saved(w, p).Retrievable() == w.Retrievable()
  {
    var storage := Saved(w, p).storage;
    assert LinkOk(w.nodes, w.storage, w.rank, digest, p) && Agrees(w.nodes[p], w.storage, p);
    forall v | v in w.nodes ensures LinkOk(w.nodes, storage, w.rank, digest, v) {
      assert LinkOk(w.nodes, w.storage, w.rank, digest, v);
    }
    forall v | v in w.nodes ensures Agrees(w.nodes[v], storage, v) {
      assert Agrees(w.nodes[v], w.storage, v);
    }
    forall v | v in storage ensures StoredLinkOk(storage, w.rank, digest, v) {
      assert v in w.storage ==> StoredLinkOk(w.storage, w.rank, digest, v);
    }
  }

  /** The instances that can be retrieved form chains that end, and every parent can be retrieved. */
  lemma RetrievableIsLinked(w: World, digest: Digest)
    requires w.Valid(digest)
    ensures Acyclic(w.Retrievable(), w.rank)
    ensures forall v | v in w.Retrievable() :: LinkHolds(w.Retrievable(), v, digest)
  {
    var view := w.Retrievable();
    forall v | v in view
      ensures v in w.rank && LinkHolds(view, v, digest)
      ensures view[v].link.Some? ==>
        var p := view[v].link.value.uuid; p in view && p in w.rank && w.rank[p] < w.rank[v]
    {
      if v in w.nodes {
        assert LinkOk(w.nodes, w.storage, w.rank, digest, v);
      } else {
        assert StoredLinkOk(w.storage, w.rank, digest, v);
      }
      if view[v].link.Some? && view[v].link.value.uuid in w.nodes {
        assert Agrees(w.nodes[view[v].link.value.uuid], w.storage, view[v].link.value.uuid);
      }
    }
  }

  /** In a valid world every chain verifies. */
  lemma ValidWorldsVerify(w: World, u: Uuid, digest: Digest)
    requires w.Valid(digest) && u in w.nodes
    ensures Acyclic(w.Retrievable(), w.rank)
    ensures Verify(w.Retrievable(), u, None, true, digest, w.rank) == 0
  {
    RetrievableIsLinked(w, digest);
    VerifyTransactionIff(w.Retrievable(), u, digest, w.rank);
  }
}
