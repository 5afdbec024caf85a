/** What taking snapshots does (`dlite-entity.c`): releasing references, setting a parent, and whole runs of
    changes and snapshots of one instance. */
module Snapshots {
  import opened Options
  import opened SnapshotChains
  import opened Transactions

  // ----- Releasing references -----

  /** dlite_instance_decref() and dlite_instance_free(): the caller gives up a reference to u. */
  ghost function DecRef(w: World, u: Uuid, digest: Digest): (r: World)
    requires w.Valid(digest) && w.Holds(u)
    ensures r.Valid(digest)
    ensures r.storage == w.storage && r.rank == w.rank && r.held == w.held[u := w.held[u] - 1]
    decreases w.rank[u]
  {
    assert CountOk(w.nodes, w.held, u);
    if w.nodes[u].refs > 1 then
      RecountKeeps(w, u, -1, digest);
      Recounted(w, u, -1)
    else
      FreeKeeps(w, u, digest);
      var p := Pointer(w.nodes[u].link);
      if p.Some? then
        PointerIsInMemory(w, u, digest);
        DecRef(Freed(w, u), p.value, digest)
      else Freed(w, u)
  }

  ghost predicate SameButRefs(a: Node, b: Node) {
    a.(refs := 0) == b.(refs := 0)
  }

  /** What is left of w are the nodes in r, with other reference counts. */
  ghost predicate Shrunk(w: World, r: World) {
    forall v | v in r.nodes :: v in w.nodes && SameButRefs(r.nodes[v], w.nodes[v])
  }

  lemma {:induction false} DecRefShrinks(w: World, u: Uuid, digest: Digest)
    requires w.Valid(digest) && w.Holds(u)
    ensures Shrunk(w, DecRef(w, u, digest))
    ensures forall v | v in w.nodes && w.rank[v] > w.rank[u] ::
      v in DecRef(w, u, digest).nodes && DecRef(w, u, digest).nodes[v] == w.nodes[v]
    ensures forall v | v in w.nodes && v in w.held && DecRef(w, u, digest).held[v] > 0 ::
      v in DecRef(w, u, digest).nodes
    decreases w.rank[u]
  {
    if w.nodes[u].refs == 1 {
      FreeKeeps(w, u, digest);
      var p := Pointer(w.nodes[u].link);
      if p.Some? {
        PointerIsInMemory(w, u, digest);
        DecRefShrinks(Freed(w, u), p.value, digest);
      }
      assert CountOk(w.nodes, w.held, u);
    } else {
      RecountKeeps(w, u, -1, digest);
    }
  }

  /** Nothing leaks and nothing dangles: an instance is still in memory exactly if somebody holds a reference
      to it or a remaining instance points to it. */
  lemma {:induction false} DecRefKeepsReachable(w: World, u: Uuid, v: Uuid, digest: Digest)
    requires w.Valid(digest) && w.Holds(u) && v in w.nodes && v in w.held
    ensures var r := DecRef(w, u, digest);
      v in r.nodes <==> r.held[v] > 0 || exists x :: x in r.nodes && r.nodes[x].PointsTo(v)
  {
    var r := DecRef(w, u, digest);
    DecRefShrinks(w, u, digest);
    if v in r.nodes {
      assert CountOk(r.nodes, r.held, v);
      if r.held[v] == 0 {
        assert Referrers(r.nodes, v) != {};
        var x :| x in Referrers(r.nodes, v);
      }
    }
    forall x | x in r.nodes && r.nodes[x].PointsTo(v) ensures v in r.nodes {
      PointerIsInMemory(r, x, digest);
    }
  }

  // ----- Setting the parent -----

  function Max(a: nat, b: nat): nat {
    if a > b then a else b
  }

  function LinkTo(w: World, p: Uuid, digest: Digest): Option<Link>
    requires p in w.nodes
  {
    Some(Link(p, digest(w.nodes[p].ToHashed()), true))
  }

  /** A new pointer from the mutable u to the immutable p, for which a new reference is taken. */
  ghost function Attached(w: World, u: Uuid, p: Uuid, digest: Digest): (r: World)
    requires w.Valid(digest) && u in w.nodes && p in w.nodes && !w.nodes[u].frozen && w.nodes[p].frozen
      && w.nodes[u].link.None?
    ensures r.Valid(digest) && r.storage == w.storage && r.held == w.held
    ensures r.nodes
      == w.nodes[p := w.nodes[p].(refs := w.nodes[p].refs + 1)][u := w.nodes[u].(link := LinkTo(w, p, digest))]
    ensures r.rank.Keys == w.rank.Keys && forall v | v in w.rank && v != u :: r.rank[v] == w.rank[v]
  {
    assert CountOk(w.nodes, w.held, p);
    RecountKeeps(w, p, 1, digest);
    var w1 := Recounted(w, p, 1);
    MutableIsHead(w1, u, digest);
    var w2 := Ranked(w1, u, Max(w.rank[u], w.rank[p] + 1));
    RankKeeps(w1, u, w2.rank[u], digest);
    RepointKeeps(w2, u, LinkTo(w, p, digest), digest);
    assert w2.held[p := w2.held[p] - 1] == w.held;
    Repointed(w2, u, LinkTo(w, p, digest))
  }

  /** The parent of the mutable u is dropped. */
  ghost function Detached(w: World, u: Uuid, digest: Digest): (r: World)
    requires w.Valid(digest) && u in w.nodes && !w.nodes[u].frozen
    ensures r.Valid(digest) && r.storage == w.storage && r.held == w.held && r.rank == w.rank
    ensures u in r.nodes && r.nodes[u] == w.nodes[u].(link := None)
    ensures forall v | v in r.nodes && v != u :: v in w.nodes && SameButRefs(r.nodes[v], w.nodes[v])
    ensures forall v | v in w.nodes && v in w.held && w.held[v] > 0 :: v in r.nodes
  {
    RepointKeeps(w, u, None, digest);
    var w1 := Repointed(w, u, None);
    var p := Pointer(w.nodes[u].link);
    if p.Some? then
      PointerIsInMemory(w, u, digest);
      DecRefShrinks(w1, p.value, digest);
      assert w1.held[p.value := w1.held[p.value] - 1] == w.held;
      DecRef(w1, p.value, digest)
    else w1
  }

  /** The new parent p is not freed with the former parent, before the pointer to it is set. */
  ghost predicate Survives(w: World, u: Uuid, p: Uuid, digest: Digest)
    requires w.Valid(digest)
  {
    u in w.nodes && p in w.nodes && (!w.nodes[u].frozen && w.nodes[p].frozen ==> p in Detached(w, u, digest).nodes)
  }

  /** dlite_instance_set_parent(); -1 on error. */
  ghost function SetParent(w: World, u: Uuid, p: Uuid, digest: Digest): (r: (World, int))
    requires w.Valid(digest) && Survives(w, u, p, digest)
    ensures r.0.Valid(digest)
  {
    if w.nodes[u].frozen || !w.nodes[p].frozen then (w, -1)
    else (Attached(Detached(w, u, digest), u, p, digest), 0)
  }

  /** Giving up a reference to q frees p: there is one reference to each node from q on up to p. */
  predicate Frees(nodes: Nodes, rank: Counts, q: Uuid, p: Uuid)
    decreases if q in rank then rank[q] else 0
  {
    q in nodes && q in rank && nodes[q].refs == 1 &&
    (q == p ||
     var next := Pointer(nodes[q].link);
     next.Some? && next.value in rank && rank[next.value] < rank[q] && Frees(nodes, rank, next.value, p))
  }

  lemma {:induction false} DecRefFreesIff(w: World, q: Uuid, p: Uuid, digest: Digest)
    requires w.Valid(digest) && w.Holds(q) && p in w.nodes
    ensures p !in DecRef(w, q, digest).nodes <==> Frees(w.nodes, w.rank, q, p)
    decreases w.rank[q]
  {
    assert CountOk(w.nodes, w.held, q);
    if w.nodes[q].refs == 1 && q != p {
      FreeKeeps(w, q, digest);
      var next := Pointer(w.nodes[q].link);
      if next.Some? {
        PointerIsInMemory(w, q, digest);
        DecRefFreesIff(Freed(w, q), next.value, p, digest);
        SameFrees(w, Freed(w, q).nodes, next.value, p, digest);
      }
    } else if q == p {
      DecRefShrinks(w, q, digest);
      assert CountOk(w.nodes, w.held, q);
      FreedIsGone(w, q, digest);
    }
  }

  lemma FreedIsGone(w: World, q: Uuid, digest: Digest)
    requires w.Valid(digest) && w.Holds(q)
    ensures q in DecRef(w, q, digest).nodes <==> w.nodes[q].refs > 1
  {
    if w.nodes[q].refs == 1 {
      FreeKeeps(w, q, digest);
      var next := Pointer(w.nodes[q].link);
      if next.Some? {
        PointerIsInMemory(w, q, digest);
        DecRefShrinks(Freed(w, q), next.value, digest);
      }
    } else {
      assert CountOk(w.nodes, w.held, q);
    }
  }

  /** Nodes above q do not matter. */
  lemma {:induction false} SameFrees(w: World, nodes: Nodes, q: Uuid, p: Uuid, digest: Digest)
    requires w.Valid(digest) && q in w.nodes
    requires forall v | v in w.nodes && w.rank[v] <= w.rank[q] :: v in nodes && nodes[v] == w.nodes[v]
    ensures Frees(nodes, w.rank, q, p) == Frees(w.nodes, w.rank, q, p)
    decreases w.rank[q]
  {
    var next := Pointer(w.nodes[q].link);
    if next.Some? {
      PointerIsInMemory(w, q, digest);
      SameFrees(w, nodes, next.value, p, digest);
    }
  }

  /** The new parent is freed too early exactly if it is an ancestor of u and there is one reference to it and to
      each instance between. Else the parent is set, or refused without a change. */
  lemma SetParentStatus(w: World, u: Uuid, p: Uuid, digest: Digest)
    requires w.Valid(digest) && u in w.nodes && p in w.nodes
    ensures var refused, former := w.nodes[u].frozen || !w.nodes[p].frozen, Pointer(w.nodes[u].link);
      && (Survives(w, u, p, digest) <==> refused || former.None? || !Frees(w.nodes, w.rank, former.value, p))
      && (Survives(w, u, p, digest) ==> var (r, status) := SetParent(w, u, p, digest);
            (status == 0 <==> !refused) && (status != 0 ==> r == w))
  {
    var former := Pointer(w.nodes[u].link);
    if !w.nodes[u].frozen && former.Some? {
      PointerIsInMemory(w, u, digest);
      RepointKeeps(w, u, None, digest);
      var w1 := Repointed(w, u, None);
      DecRefFreesIff(w1, former.value, p, digest);
      SameFrees(w, w1.nodes, former.value, p, digest);
    }
  }

  /** A parent to which the caller holds a reference survives. */
  lemma HeldSurvives(w: World, u: Uuid, p: Uuid, digest: Digest)
    requires w.Valid(digest) && u in w.nodes && w.Holds(p)
    ensures Survives(w, u, p, digest)
  {}

  /** On success u has the parent p with its present hash, and nothing else has changed except that a former
      parent nobody else refers to may be gone. */
  lemma SetParentSetsLink(w: World, u: Uuid, p: Uuid, digest: Digest)
    requires w.Valid(digest) && Survives(w, u, p, digest) && !w.nodes[u].frozen && w.nodes[p].frozen
    ensures var r := SetParent(w, u, p, digest).0;
      && r.held == w.held && r.storage == w.storage
      && u in r.nodes && r.nodes[u] == w.nodes[u].(link := LinkTo(w, p, digest))
      && (forall v | v in r.nodes && v != u :: v in w.nodes && SameButRefs(r.nodes[v], w.nodes[v]))
      && (forall v | v in w.nodes && v in w.held && w.held[v] > 0 :: v in r.nodes)
  {
    var w1 := Detached(w, u, digest);
    var r := Attached(w1, u, p, digest);
    assert LinkTo(w1, p, digest) == LinkTo(w, p, digest);
    assert SetParent(w, u, p, digest).0 == r;
  }

  // ----- Copy and snapshot -----

  /** dlite_instance_copy(): a mutable copy with the same parent, to which the caller holds the reference. */
  ghost function Copied(w: World, u: Uuid, id: Uuid, digest: Digest): (r: World)
    requires w.Valid(digest) && u in w.nodes && id !in w.nodes && id !in w.storage
    ensures r.Valid(digest) && r.storage == w.storage && r.held == w.held[id := 1] && r.rank == w.rank[id := w.rank[u]]
    ensures r.nodes.Keys == w.nodes.Keys + {id} && r.nodes[id] == Node(w.nodes[u].data, w.nodes[u].link, false, 1)
    ensures forall v | v in w.nodes :: r.nodes[v] == w.nodes[v].(refs := w.nodes[v].refs + One(w.nodes[u].PointsTo(v)))
  {
    var n := Node(w.nodes[u].data, w.nodes[u].link, false, 1);
    MutableIsHead(w, id, digest);
    RankKeeps(w, id, w.rank[u], digest);
    var w1 := Ranked(w, id, w.rank[u]);
    assert LinkOk(w.nodes, w.storage, w.rank, digest, u);
    var p := Pointer(n.link);
    if p.Some? then
      PointerIsInMemory(w, u, digest);
      RecountKeeps(w1, p.value, 1, digest);
      var w2 := Recounted(w1, p.value, 1);
      AddKeeps(w2, id, n, digest);
      Added(w2, id, n)
    else
      AddKeeps(w1, id, n, digest);
      Added(w1, id, n)
  }

  /** The node that a snapshot of u adds, and u afterwards. */
  function SnapshotOf(n: Node): Node {
    Node(n.data, n.link, true, 1)
  }

  function HeadAfter(n: Node, id: Uuid, digest: Digest): Node {
    n.(link := Some(Link(id, digest(SnapshotOf(n).ToHashed()), true)))
  }

  /** dlite_instance_snapshot() up to the point where the copy is immutable. */
  ghost function CopyFrozen(w: World, u: Uuid, id: Uuid, digest: Digest): (r: World)
    requires w.Valid(digest) && u in w.nodes && id !in w.nodes && id !in w.storage
    ensures r.Valid(digest) && r.storage == w.storage && r.held == w.held[id := 1]
    ensures r.nodes.Keys == w.nodes.Keys + {id} && r.nodes[id] == SnapshotOf(w.nodes[u])
    ensures forall v | v in w.nodes :: r.nodes[v] == w.nodes[v].(refs := w.nodes[v].refs + One(w.nodes[u].PointsTo(v)))
  {
    var w1 := Copied(w, u, id, digest);
    ChangeKeeps(w1, id, w.nodes[u].data, true, digest);
    Changed(w1, id, w.nodes[u].data, true)
  }

  /** dlite_instance_snapshot() with the new identity id: 0 on success and 1 on error. */
  ghost function Snapshot(w: World, u: Uuid, id: Uuid, digest: Digest): (r: (World, int))
    requires w.Valid(digest) && u in w.nodes && id !in w.nodes && id !in w.storage
    ensures r.0.Valid(digest)
  {
    if w.nodes[u].frozen then (w, 1)
    else
      HeldSurvives(CopyFrozen(w, u, id, digest), u, id, digest);
      var (w1, status) := SetParent(CopyFrozen(w, u, id, digest), u, id, digest);
      SetParentStatus(CopyFrozen(w, u, id, digest), u, id, digest);
      SetParentSetsLink(CopyFrozen(w, u, id, digest), u, id, digest);
      (DecRef(w1, id, digest), if status == 0 then 0 else 1)
  }

  /** While a second node points to the parent of u, dropping the parent of u only changes its count. */
  lemma DetachShared(w: World, u: Uuid, id: Uuid, digest: Digest)
    requires w.Valid(digest) && u in w.nodes && !w.nodes[u].frozen && id in w.nodes && id != u
    requires Pointer(w.nodes[u].link).Some? && w.nodes[id].link == w.nodes[u].link
    ensures var p := w.nodes[u].link.value.uuid;
      && p in w.nodes && w.nodes[p].refs > 1
      && Detached(w, u, digest).nodes
        == w.nodes[p := w.nodes[p].(refs := w.nodes[p].refs - 1)][u := w.nodes[u].(link := None)]
  {
    var p := w.nodes[u].link.value.uuid;
    PointerIsInMemory(w, u, digest);
    SharedIsCounted(w, u, id, p, digest);
  }

  lemma SharedIsCounted(w: World, u: Uuid, id: Uuid, p: Uuid, digest: Digest)
    requires w.Valid(digest) && u in w.nodes && id in w.nodes && id != u && p in w.nodes
    requires w.nodes[u].PointsTo(p) && w.nodes[id].PointsTo(p)
    ensures w.nodes[p].refs > 1
  {
    assert CountOk(w.nodes, w.held, p);
    assert {u, id} <= Referrers(w.nodes, p);
    TwoReferrers(Referrers(w.nodes, p), u, id);
  }

  lemma TwoReferrers(s: set<Uuid>, u: Uuid, id: Uuid)
    requires u in s && id in s && u != id
    ensures |s| > 1
  {
    assert s == (s - {u}) + {u} && id in s - {u};
  }

  lemma DetachUnshared(w: World, u: Uuid, digest: Digest)
    requires w.Valid(digest) && u in w.nodes && !w.nodes[u].frozen && Pointer(w.nodes[u].link).None?
    ensures Detached(w, u, digest).nodes == w.nodes[u := w.nodes[u].(link := None)]
  {}

  /** The copy's reference to p in place of the one that u gives up. */
  lemma OneMoreOneLess(a: Nodes, b: Nodes, u: Uuid, id: Uuid, n: Node, m: Node, p: Option<Uuid>)
    requires u in a && id !in a && b.Keys == a.Keys + {id} && b[id] == n
    requires forall v | v in a :: b[v] == a[v].(refs := a[v].refs + One(p == Some(v)))
    requires p.Some? ==> p.value in a && p.value != u
    ensures p.Some? ==> b[p.value].refs > 0
    ensures (if p.Some? then b[p.value := b[p.value].(refs := b[p.value].refs - 1)] else b)[u := m]
      == a[id := n][u := m]
  {}

  /** The former parent has as many references as before: the snapshot's in place of the head's. */
  lemma SharedParentKeepsRefs(w: World, u: Uuid, id: Uuid, digest: Digest)
    requires w.Valid(digest) && u in w.nodes && id !in w.nodes && id !in w.storage && !w.nodes[u].frozen
    ensures Detached(CopyFrozen(w, u, id, digest), u, digest).nodes
      == w.nodes[id := SnapshotOf(w.nodes[u])][u := w.nodes[u].(link := None)]
  {
    var w2 := CopyFrozen(w, u, id, digest);
    MutableIsHead(w, u, digest);
    var p := Pointer(w.nodes[u].link);
    if p.Some? {
      PointerIsInMemory(w, u, digest);
      DetachShared(w2, u, id, digest);
    } else {
      DetachUnshared(w2, u, digest);
    }
    OneMoreOneLess(w.nodes, w2.nodes, u, id, SnapshotOf(w.nodes[u]), w.nodes[u].(link := None), p);
  }

  lemma PutTwice(nodes: Nodes, id: Uuid, n: Node, n2: Node, u: Uuid, x: Node, y: Node)
    requires id != u
    ensures nodes[id := n][u := x][id := n2][u := y] == nodes[id := n2][u := y]
    ensures nodes[id := n][u := x][id := n2] == nodes[id := n2][u := x]
  {}

  /** The snapshot and the head before the caller's reference to the snapshot is given up. */
  lemma AttachSnapshot(w: World, u: Uuid, id: Uuid, digest: Digest)
    requires w.Valid(digest) && u in w.nodes && id !in w.nodes && id !in w.storage && !w.nodes[u].frozen
    ensures Survives(CopyFrozen(w, u, id, digest), u, id, digest)
    ensures var r := SetParent(CopyFrozen(w, u, id, digest), u, id, digest).0;
      && r.storage == w.storage && r.held == w.held[id := 1]
      && r.nodes == w.nodes[id := SnapshotOf(w.nodes[u]).(refs := 2)][u := HeadAfter(w.nodes[u], id, digest)]
  {
    SharedParentKeepsRefs(w, u, id, digest);
    var w1 := CopyFrozen(w, u, id, digest);
    var w2 := Detached(w1, u, digest);
    var n := SnapshotOf(w.nodes[u]);
    assert LinkTo(w2, id, digest) == HeadAfter(w.nodes[u], id, digest).link;
    PutTwice(w.nodes, id, n, n.(refs := 2), u, w.nodes[u].(link := None), HeadAfter(w.nodes[u], id, digest));
    assert SetParent(w1, u, id, digest).0 == Attached(w2, u, id, digest);
  }

  lemma DecRefShared(w: World, u: Uuid, digest: Digest)
    requires w.Valid(digest) && w.Holds(u) && w.nodes[u].refs > 1
    ensures DecRef(w, u, digest).nodes == w.nodes[u := w.nodes[u].(refs := w.nodes[u].refs - 1)]
  {}

  /** Giving up the caller's reference leaves the one of the head. */
  lemma ReleaseSnapshot(w: World, r: World, u: Uuid, id: Uuid, n: Node, head: Node, digest: Digest)
    requires r.Valid(digest) && r.held == w.held[id := 1] && u != id
    requires r.nodes == w.nodes[id := n.(refs := 2)][u := head]
    ensures DecRef(r, id, digest).nodes == w.nodes[id := n.(refs := 1)][u := head]
    ensures DecRef(r, id, digest).held == w.held[id := 0] && DecRef(r, id, digest).storage == r.storage
  {
    DecRefShared(r, id, digest);
    PutTwice(w.nodes, id, n.(refs := 2), n.(refs := 1), u, head, head);
    assert w.held[id := 1][id := 0] == w.held[id := 0];
  }

  lemma SnapshotUnfolded(w: World, u: Uuid, id: Uuid, digest: Digest)
    requires w.Valid(digest) && u in w.nodes && id !in w.nodes && id !in w.storage && !w.nodes[u].frozen
    ensures Survives(CopyFrozen(w, u, id, digest), u, id, digest)
    ensures var r := SetParent(CopyFrozen(w, u, id, digest), u, id, digest).0;
      r.Holds(id) && Snapshot(w, u, id, digest) == (DecRef(r, id, digest), 0)
  {
    SetParentStatus(CopyFrozen(w, u, id, digest), u, id, digest);
    SetParentSetsLink(CopyFrozen(w, u, id, digest), u, id, digest);
  }

  /** A snapshot of a mutable instance adds exactly one node, immutable, with the head's content and former
      parent, and makes it the head's parent; all other nodes keep their values, links and reference counts. */
  lemma SnapshotAddsOne(w: World, u: Uuid, id: Uuid, digest: Digest)
    requires w.Valid(digest) && u in w.nodes && id !in w.nodes && id !in w.storage
    ensures var (r, status) := Snapshot(w, u, id, digest);
      && (status == 0 <==> !w.nodes[u].frozen)
      && (status != 0 ==> r == w)
      && (status == 0 ==>
            && r.nodes == w.nodes[id := SnapshotOf(w.nodes[u])][u := HeadAfter(w.nodes[u], id, digest)]
            && r.storage == w.storage && r.held == w.held[id := 0])
  {
    if !w.nodes[u].frozen {
      AttachSnapshot(w, u, id, digest);
      SnapshotUnfolded(w, u, id, digest);
      var r := SetParent(CopyFrozen(w, u, id, digest), u, id, digest).0;
      ReleaseSnapshot(w, r, u, id, SnapshotOf(w.nodes[u]), HeadAfter(w.nodes[u], id, digest), digest);
    }
  }

  /** The parent of u that a snapshot has just set cannot be set again unless somebody holds it. */
  lemma BorrowedParentIsFreed(w: World, u: Uuid, id: Uuid, digest: Digest)
    requires w.Valid(digest) && u in w.nodes && id !in w.nodes && id !in w.storage && !w.nodes[u].frozen
    ensures !Survives(Snapshot(w, u, id, digest).0, u, id, digest)
  {
    SnapshotAddsOne(w, u, id, digest);
    SoleParentIsFreed(Snapshot(w, u, id, digest).0, u, id, digest);
  }

  /** A parent to which there is no other reference. */
  lemma SoleParentIsFreed(w: World, u: Uuid, p: Uuid, digest: Digest)
    requires w.Valid(digest) && u in w.nodes && !w.nodes[u].frozen && w.nodes[u].PointsTo(p)
    requires p in w.nodes && w.nodes[p].refs == 1
    ensures !Survives(w, u, p, digest)
  {
    PointerIsInMemory(w, u, digest);
    SetParentStatus(w, u, p, digest);
  }

  // ----- Runs -----

  /** What happens to one instance: a change of its values by dlite_instance_set_property() or a resize, or a
      snapshot under a new identity. */
  datatype Act = Write(data: Data) | Snap(id: Uuid)

  /** Identities of snapshots are random; they are supposed to be new. */
  ghost predicate Fresh(w: World, acts: seq<Act>) {
    && (forall i | 0 <= i < |acts| && acts[i].Snap? :: acts[i].id !in w.nodes && acts[i].id !in w.storage)
    && forall i, j | 0 <= i < j < |acts| && acts[i].Snap? && acts[j].Snap? :: acts[i].id != acts[j].id
  }

  ghost function Perform(w: World, u: Uuid, act: Act, digest: Digest): World
    requires w.Valid(digest) && u in w.nodes && !w.nodes[u].frozen
    requires act.Snap? ==> act.id !in w.nodes && act.id !in w.storage
  {
    if act.Snap? then Snapshot(w, u, act.id, digest).0 else Changed(w, u, act.data, false)
  }

  lemma SnapshotKeeps(w: World, u: Uuid, id: Uuid, digest: Digest)
    requires w.Valid(digest) && u in w.nodes && !w.nodes[u].frozen && id !in w.nodes && id !in w.storage
    ensures var r := Snapshot(w, u, id, digest).0;
      && r.storage == w.storage && r.nodes.Keys == w.nodes.Keys + {id}
      && !r.nodes[u].frozen && r.nodes[u].data == w.nodes[u].data
  {
    SnapshotAddsOne(w, u, id, digest);
    KeysAfterPuts(w.nodes, id, SnapshotOf(w.nodes[u]), u, HeadAfter(w.nodes[u], id, digest));
  }

  lemma KeysAfterPuts(nodes: Nodes, id: Uuid, n: Node, u: Uuid, m: Node)
    requires u in nodes
    ensures nodes[id := n][u := m].Keys == nodes.Keys + {id}
  {}

  lemma PerformKeeps(w: World, u: Uuid, act: Act, digest: Digest)
    requires w.Valid(digest) && u in w.nodes && !w.nodes[u].frozen
    requires act.Snap? ==> act.id !in w.nodes && act.id !in w.storage
    ensures var r := Perform(w, u, act, digest);
      && r.Valid(digest) && r.storage == w.storage
      && r.nodes.Keys == w.nodes.Keys + (if act.Snap? then {act.id} else {})
    ensures var r := Perform(w, u, act, digest);
      u in r.nodes && !r.nodes[u].frozen && r.nodes[u].data == if act.Snap? then w.nodes[u].data else act.data
  {
    if act.Snap? {
      SnapshotKeeps(w, u, act.id, digest);
      assert Perform(w, u, act, digest) == Snapshot(w, u, act.id, digest).0;
    } else {
      ChangeKeeps(w, u, act.data, false, digest);
      assert Perform(w, u, act, digest) == Changed(w, u, act.data, false);
    }
  }

  lemma StaysFresh(w: World, u: Uuid, acts: seq<Act>, digest: Digest)
    requires w.Valid(digest) && u in w.nodes && !w.nodes[u].frozen && Fresh(w, acts) && acts != []
    ensures Fresh(Perform(w, u, acts[0], digest), acts[1..])
  {
    PerformKeeps(w, u, acts[0], digest);
  }

  ghost function After(w: World, u: Uuid, acts: seq<Act>, digest: Digest): (r: World)
    requires w.Valid(digest) && u in w.nodes && !w.nodes[u].frozen && Fresh(w, acts)
    ensures r.Valid(digest) && u in r.nodes
    decreases |acts|
  {
    if acts == [] then w
    else
      PerformKeeps(w, u, acts[0], digest);
      StaysFresh(w, u, acts, digest);
      After(Perform(w, u, acts[0], digest), u, acts[1..], digest)
  }

  /** The values that the chain should show after a run: those of the head, then those of its snapshots,
      the last one first. */
  function History(data: Data, acts: seq<Act>): (h: seq<Data>)
    ensures |h| > 0
    decreases |acts|
  {
    if acts == [] then [data]
    else if acts[0].Snap? then History(data, acts[1..]) + [data]
    else History(acts[0].data, acts[1..])
  }

  lemma RetrievablePut(w: World, u: Uuid, n: Node)
    ensures w.(nodes := w.nodes[u := n]).Retrievable() == w.Retrievable()[u := n.ToHashed()]
  {}

  /** The view r after a change of u in v. */
  ghost predicate Written(v: View, r: View, u: Uuid, data: Data) {
    u in v && r == v[u := v[u].(data := data)]
  }

  /** The view r after a snapshot of u in v. */
  ghost predicate Snapped(v: View, r: View, u: Uuid, id: Uuid) {
    && u in v && id !in v && u in r && r == v[id := v[u]][u := r[u]]
    && r[u].data == v[u].data && r[u].link.Some? && r[u].link.value.uuid == id
  }

  lemma WriteIsWritten(w: World, u: Uuid, data: Data)
    requires u in w.nodes
    ensures Written(w.Retrievable(), Changed(w, u, data, false).Retrievable(), u, data)
  {
    RetrievablePut(w, u, w.nodes[u].(data := data, frozen := false));
  }

  lemma SnapshotIsSnapped(w: World, u: Uuid, id: Uuid, digest: Digest)
    requires w.Valid(digest) && u in w.nodes && !w.nodes[u].frozen && id !in w.nodes && id !in w.storage
    ensures Snapped(w.Retrievable(), Snapshot(w, u, id, digest).0.Retrievable(), u, id)
  {
    SnapshotAddsOne(w, u, id, digest);
    var n, head := SnapshotOf(w.nodes[u]), HeadAfter(w.nodes[u], id, digest);
    RetrievablePut(w, id, n);
    var w1 := w.(nodes := w.nodes[id := n]);
    RetrievablePut(w1, u, head);
    assert Snapshot(w, u, id, digest).0.Retrievable() == w1.(nodes := w1.nodes[u := head]).Retrievable();
  }

  /** All chains of a view end, and no parent is missing. */
  ghost predicate Sound(v: View, rank: Counts) {
    Acyclic(v, rank) && forall q | q in v && v[q].link.Some? :: v[q].link.value.uuid in v
  }

  /** The chain of u is not affected by changes of u and new instances, from its parent on. */
  lemma {:induction false} ChainUntouched(v: View, w: View, rank: Counts, p: Uuid, u: Uuid, n: nat)
    requires Sound(v, rank) && p in v && u in rank && rank[p] < rank[u]
    requires forall q | q in v && q != u :: q in w && w[q] == v[q]
    ensures Ancestor(w, p, n) == Ancestor(v, p, n)
    ensures Ancestor(v, p, n).Some? ==> Ancestor(v, p, n).value != u
    decreases n
  {
    if n > 0 && v[p].link.Some? {
      ChainUntouched(v, w, rank, v[p].link.value.uuid, u, n - 1);
    }
  }

  /** Same n-th ancestor of u, with the same content. */
  ghost predicate SameAncestor(v: View, n: nat, r: View, m: nat, u: Uuid)
    requires u in v && u in r
  {
    && Ancestor(r, u, m) == Ancestor(v, u, n)
    && (Ancestor(v, u, n).Some? ==> r[Ancestor(v, u, n).value] == v[Ancestor(v, u, n).value])
  }

  lemma WrittenChain(v: View, r: View, rank: Counts, u: Uuid, data: Data, n: nat)
    requires Sound(v, rank) && Written(v, r, u, data) && n > 0
    ensures SameAncestor(v, n, r, n, u)
  {
    if v[u].link.Some? { ChainUntouched(v, r, rank, v[u].link.value.uuid, u, n - 1); }
  }

  lemma SnappedChain(v: View, r: View, rank: Counts, u: Uuid, id: Uuid, n: nat)
    requires Sound(v, rank) && Snapped(v, r, u, id) && n > 0
    ensures SameAncestor(v, n, r, n + 1, u)
    ensures Ancestor(r, u, 1) == Some(id) && r[id] == v[u]
  {
    assert Ancestor(r, id, 0) == Some(id);
    assert Ancestor(r, u, n + 1) == Ancestor(r, id, n);
    if v[u].link.Some? {
      var p := v[u].link.value.uuid;
      ChainUntouched(v, r, rank, p, u, n - 1);
      assert Ancestor(r, id, n) == Ancestor(r, p, n - 1);
    }
  }

  /** The n-th ancestor of u in r is the entry of h, or, past the end of h, an ancestor of u in v. */
  ghost predicate Shows(v: View, r: View, h: seq<Data>, u: Uuid, n: nat)
    requires u in v && u in r && |h| > 0
  {
    && (n < |h| ==> Ancestor(r, u, n).Some? && r[Ancestor(r, u, n).value].data == h[n])
    && (n >= |h| ==> SameAncestor(v, n - |h| + 1, r, n, u))
  }

  lemma ShowsThroughWrite(v: View, v1: View, r: View, rank: Counts, u: Uuid, data: Data, h: seq<Data>, n: nat)
    requires Sound(v, rank) && Written(v, v1, u, data) && u in r && |h| > 0 && Shows(v1, r, h, u, n)
    ensures Shows(v, r, h, u, n)
  {
    if n >= |h| { WrittenChain(v, v1, rank, u, data, n - |h| + 1); }
  }

  lemma ShowsThroughSnapshot(v: View, v1: View, r: View, rank: Counts, u: Uuid, id: Uuid, h: seq<Data>, n: nat)
    requires Sound(v, rank) && Snapped(v, v1, u, id) && u in r && |h| > 0 && Shows(v1, r, h, u, n)
    ensures Shows(v, r, h + [v[u].data], u, n)
  {
    SnappedChain(v, v1, rank, u, id, if n > |h| then n - |h| else 1);
  }

  lemma ShowsThroughAct(w: World, u: Uuid, act: Act, r: View, h: seq<Data>, digest: Digest, n: nat)
    requires w.Valid(digest) && u in w.nodes && !w.nodes[u].frozen
    requires act.Snap? ==> act.id !in w.nodes && act.id !in w.storage
    requires |h| > 0 && u in r && u in Perform(w, u, act, digest).nodes
    requires Shows(Perform(w, u, act, digest).Retrievable(), r, h, u, n)
    ensures Shows(w.Retrievable(), r, if act.Snap? then h + [w.nodes[u].data] else h, u, n)
  {
    var w1 := Perform(w, u, act, digest);
    RetrievableIsLinked(w, digest);
    if act.Snap? {
      SnapshotIsSnapped(w, u, act.id, digest);
      ShowsThroughSnapshot(w.Retrievable(), w1.Retrievable(), r, w.rank, u, act.id, h, n);
    } else {
      WriteIsWritten(w, u, act.data);
      ShowsThroughWrite(w.Retrievable(), w1.Retrievable(), r, w.rank, u, act.data, h, n);
    }
  }

  /** After any run of changes and snapshots the chain shows the values that the head had at each snapshot,
      the last one first, and beyond them the chain that was there before. */
  lemma {:induction false} RunShowsHistory(w: World, u: Uuid, acts: seq<Act>, digest: Digest, n: nat)
    requires w.Valid(digest) && u in w.nodes && !w.nodes[u].frozen && Fresh(w, acts)
    ensures Shows(w.Retrievable(), After(w, u, acts, digest).Retrievable(), History(w.nodes[u].data, acts), u, n)
    decreases |acts|
  {
    if acts != [] {
      PerformKeeps(w, u, acts[0], digest);
      var w1 := Perform(w, u, acts[0], digest);
      StaysFresh(w, u, acts, digest);
      RunShowsHistory(w1, u, acts[1..], digest, n);
      ShowsThroughAct(w, u, acts[0], After(w, u, acts, digest).Retrievable(), History(w1.nodes[u].data, acts[1..]),
        digest, n);
    }
  }

  lemma RunVerifies(w: World, u: Uuid, acts: seq<Act>, digest: Digest)
    requires w.Valid(digest) && u in w.nodes && !w.nodes[u].frozen && Fresh(w, acts)
    ensures var r := After(w, u, acts, digest);
      Acyclic(r.Retrievable(), r.rank) && Verify(r.Retrievable(), u, None, true, digest, r.rank) == 0
  {
    ValidWorldsVerify(After(w, u, acts, digest), u, digest);
  }
}
