/** The store of instances in memory and its storage, updated in place (`dlite-entity.c`). Every operation is
    proved to do what the step of the same name does to the world. */
module InstanceStores {
  import opened Options
  import opened SnapshotChains
  import opened Transactions
  import opened Snapshots
  import opened PushPull

  class InstanceStore {
    const digest: Digest
    /** Whether the storage supports transactions, and the instances that it fails to save. */
    const transactional: bool
    const fails: set<Uuid>

    var nodes: Nodes
    var storage: View
    ghost var held: Counts
    ghost var rank: Counts

    ghost function Current(): World
      reads this
    {
      World(nodes, storage, held, rank)
    }

    ghost predicate Valid()
      reads this
    {
      Current().Valid(digest)
    }

    constructor (digest: Digest, transactional: bool, fails: set<Uuid>)
      ensures Valid() && nodes == map[] && storage == map[]
      ensures this.digest == digest && this.transactional == transactional && this.fails == fails
    {
      this.digest, this.transactional, this.fails := digest, transactional, fails;
      nodes, storage, held, rank := map[], map[], map[], map[];
    }

    /** A new instance without a parent. */
    method Create(id: Uuid, data: Data)
      requires Valid() && id !in nodes && id !in storage
      modifies this
      ensures Valid() && nodes == old(nodes)[id := Node(data, None, false, 1)]
      ensures storage == old(storage) && held == old(held)[id := 1]
    {
      MutableIsHead(Current(), id, digest);
      RankKeeps(Current(), id, 0, digest);
      rank := rank[id := 0];
      AddKeeps(Current(), id, Node(data, None, false, 1), digest);
      nodes, held := nodes[id := Node(data, None, false, 1)], held[id := 1];
    }

    /** Setting a property or resizing: refused for an immutable instance. */
    method SetData(u: Uuid, data: Data) returns (ok: bool)
      requires Valid() && u in nodes
      modifies this
      ensures Valid() && ok == !old(nodes)[u].frozen
      ensures Current() == if ok then Changed(old(Current()), u, data, false) else old(Current())
    {
      if nodes[u].frozen { return false; }
      ChangeKeeps(Current(), u, data, false, digest);
      nodes := nodes[u := nodes[u].(data := data)];
      return true;
    }

    method Freeze(u: Uuid)
      requires Valid() && u in nodes
      modifies this
      ensures Valid() && Current() == Changed(old(Current()), u, old(nodes)[u].data, true)
    {
      if nodes[u].frozen {
        assert nodes == nodes[u := nodes[u].(data := nodes[u].data, frozen := true)];
      } else {
        ChangeKeeps(Current(), u, nodes[u].data, true, digest);
      }
      nodes := nodes[u := nodes[u].(frozen := true)];
    }

    method IncRef(u: Uuid) returns (count: nat)
      requires Valid() && u in nodes && u in held
      modifies this
      ensures Valid() && Current() == Recounted(old(Current()), u, 1)
      ensures count == nodes[u].refs
    {
      RecountKeeps(Current(), u, 1, digest);
      nodes, held := nodes[u := nodes[u].(refs := nodes[u].refs + 1)], held[u := held[u] + 1];
      count := nodes[u].refs;
    }

    /** Gives up a reference to u; an instance without references is freed, and gives up the one to its parent. */
    method DecRef(u: Uuid) returns (count: nat)
      requires Valid() && Current().Holds(u)
      modifies this
      ensures Valid() && Current() == Snapshots.DecRef(old(Current()), u, digest)
      ensures count == old(nodes)[u].refs - 1
      decreases rank[u]
    {
      ghost var w := Current();
      assert CountOk(nodes, held, u);
      count := nodes[u].refs - 1;
      if count > 0 {
        RecountKeeps(w, u, -1, digest);
        nodes, held := nodes[u := nodes[u].(refs := count)], held[u := held[u] - 1];
      } else {
        FreeKeeps(w, u, digest);
        var link := nodes[u].link;
        if Pointer(link).Some? { PointerIsInMemory(w, u, digest); }
        nodes, held := nodes - {u}, Returned(held[u := 0], link);
        if Pointer(link).Some? {
          var _ := DecRef(link.value.uuid);
        }
      }
    }

    /** Drops the parent of u. */
    method Detach(u: Uuid)
      requires Valid() && u in nodes && !nodes[u].frozen
      modifies this
      ensures Valid() && Current() == Detached(old(Current()), u, digest)
    {
      ghost var w := Current();
      var link := nodes[u].link;
      RepointKeeps(w, u, None, digest);
      if Pointer(link).Some? { PointerIsInMemory(w, u, digest); }
      nodes, held := nodes[u := nodes[u].(link := None)], Returned(held, link);
      if Pointer(link).Some? {
        var _ := DecRef(link.value.uuid);
      }
    }

    /** Sets the pointer from u to p. */
    method Attach(u: Uuid, p: Uuid)
      requires Valid() && u in nodes && p in nodes
      requires !nodes[u].frozen && nodes[p].frozen && nodes[u].link.None?
      modifies this
      ensures Valid() && Current() == Attached(old(Current()), u, p, digest)
    {
      ghost var w := Current();
      assert CountOk(nodes, held, p) && Attached(w, u, p, digest).Valid(digest);
      var link := Some(Link(p, digest(nodes[p].ToHashed()), true));
      nodes := nodes[p := nodes[p].(refs := nodes[p].refs + 1)];
      nodes := nodes[u := nodes[u].(link := link)];
      rank := rank[u := Max(rank[u], rank[p] + 1)];
    }

    /** dlite_instance_set_parent(); crashes if the parent is freed before it is used. */
    method SetParent(u: Uuid, p: Uuid) returns (status: int, crashed: bool)
      requires Valid() && u in nodes && p in nodes
      modifies this
      ensures Valid() && crashed == !Survives(old(Current()), u, p, digest)
      ensures !crashed ==> (Current(), status) == Snapshots.SetParent(old(Current()), u, p, digest)
    {
      if nodes[u].frozen || !nodes[p].frozen { return -1, false; }
      Detach(u);
      if p !in nodes { return 0, true; }
      Attach(u, p);
      return 0, false;
    }

    /** A mutable copy with the same parent. */
    method Copy(u: Uuid, id: Uuid)
      requires Valid() && u in nodes && id !in nodes && id !in storage
      modifies this
      ensures Valid() && Current() == Copied(old(Current()), u, id, digest)
    {
      ghost var w := Current();
      assert Copied(w, u, id, digest).Valid(digest);
      var link := nodes[u].link;
      MutableIsHead(w, id, digest);
      RankKeeps(w, id, rank[u], digest);
      rank := rank[id := rank[u]];
      if Pointer(link).Some? {
        PointerIsInMemory(w, u, digest);
        var _ := IncRef(link.value.uuid);
      }
      held := Taken(held, link)[id := 1];
      nodes := nodes[id := Node(nodes[u].data, link, false, 1)];
    }

    /** dlite_instance_snapshot() */
    method TakeSnapshot(u: Uuid, id: Uuid) returns (status: int)
      requires Valid() && u in nodes && id !in nodes && id !in storage
      modifies this
      ensures Valid() && (Current(), status) == Snapshot(old(Current()), u, id, digest)
    {
      if nodes[u].frozen { return 1; }
      ghost var w := Current();
      Copy(u, id);
      Freeze(id);
      assert Current() == CopyFrozen(w, u, id, digest);
      HeldSurvives(Current(), u, id, digest);
      SetParentStatus(Current(), u, id, digest);
      SetParentSetsLink(Current(), u, id, digest);
      var crashed;
      status, crashed := SetParent(u, id);
      var _ := DecRef(id);
    }

    /** Loads the stored instance q, or finds it in memory; the caller gets a reference. */
    method Load(q: Uuid)
      requires Valid() && q in storage
      modifies this
      ensures Valid() && Current() == Loaded(old(Current()), q, digest)
    {
      ghost var w := Current();
      assert Loaded(w, q, digest).Valid(digest);
      if q in nodes {
        assert CountOk(nodes, held, q);
        var _ := IncRef(q);
      } else {
        nodes, held := nodes[q := FromStorage(storage[q])], held[q := 1];
      }
    }

    /** Loads the parent of u and sets the pointer to it. */
    method PullParent(u: Uuid)
      requires Valid() && u in nodes && nodes[u].link.Some? && !nodes[u].link.value.loaded
      modifies this
      ensures Valid() && Current() == Pulled(old(Current()), u, digest)
    {
      ghost var w := Current();
      UnloadedIsStored(w, u, digest);
      assert Pulled(w, u, digest).Valid(digest);
      var l := nodes[u].link.value;
      Load(l.uuid);
      nodes, held := nodes[u := nodes[u].(link := Some(l.(loaded := true)))], held[l.uuid := held[l.uuid] - 1];
    }

    /** The parent of u in memory, loaded if need be; view is what can be retrieved. */
    method Parent(u: Uuid, ghost w: World, ghost view: View) returns (p: Option<Uuid>)
      requires Valid() && u in nodes && Grown(w, Current()) && view == w.Retrievable()
      modifies this
      ensures Valid() && Grown(w, Current()) && (p.Some? ==> p.value in nodes)
      ensures u in view && p == Ancestor(view, u, 1)
    {
      SameFound(w, Current());
      if nodes[u].link.None? { return None; }
      if !nodes[u].link.value.loaded { PullFurther(u, w); }
      SameFound(w, Current());
      ParentInMemory(Current(), u, digest);
      return Some(nodes[u].link.value.uuid);
    }

    method PullFurther(u: Uuid, ghost w: World)
      requires Valid() && u in nodes && nodes[u].link.Some? && !nodes[u].link.value.loaded && Grown(w, Current())
      modifies this
      ensures Valid() && u in nodes && Grown(w, Current())
      ensures nodes[u].link == Some(old(nodes)[u].link.value.(loaded := true))
    {
      SameFound(w, Current());
      PulledKeepsView(Current(), u, digest);
      PulledKeepsHeld(Current(), u, digest);
      PullParent(u);
      SameFound(w, Current());
    }

    /** dlite_instance_get_snapshot(): the n-th ancestor, loading those that are not in memory; None on error. */
    method GetSnapshot(u: Uuid, n: int) returns (r: Option<Uuid>)
      requires Valid() && u in nodes
      modifies this
      ensures Valid() && Grown(old(Current()), Current())
      ensures Current().Retrievable() == old(Current().Retrievable())
      ensures r == if n < 0 then None else Ancestor(old(Current().Retrievable()), u, n)
      ensures r.Some? ==> r.value in nodes
    {
      if n < 0 { return None; }
      ghost var w := Current();
      r := FollowParents(u, n, w, w.Retrievable());
      SameFound(w, Current());
    }

    /** The loop over the ancestors; view is what can be retrieved. */
    method FollowParents(u: Uuid, n: nat, ghost w: World, ghost view: View) returns (r: Option<Uuid>)
      requires Valid() && u in nodes && Grown(w, Current()) && view == w.Retrievable() && u in view
      modifies this
      ensures Valid() && Grown(w, Current()) && r == Ancestor(view, u, n) && (r.Some? ==> r.value in nodes)
    {
      var cur := u;
      var i: nat := 0;
      while i < n
        invariant i <= n && Valid() && Grown(w, Current())
        invariant cur in nodes && Leads(view, u, n, cur, n - i)
      {
        var p := Parent(cur, w, view);
        LeadsOn(view, u, n, cur, n - i);
        if p.None? { return None; }
        cur, i := p.value, i + 1;
      }
      return Some(cur);
    }

    /** dlite_instance_pull_snapshot() */
    method PullSnapshot(u: Uuid, n: int) returns (r: Option<Uuid>)
      requires Valid() && u in nodes
      modifies this
      ensures Valid() && Grown(old(Current()), Current())
      ensures Current().Retrievable() == old(Current().Retrievable())
      ensures r == if n < 0 || !transactional then None else Ancestor(old(Current().Retrievable()), u, n)
      ensures r.Some? ==> r.value in nodes
    {
      if n < 0 || !transactional { return None; }
      r := GetSnapshot(u, n);
    }

    /** dlite_instance_push_snapshot() */
    method PushSnapshot(u: Uuid, n: int) returns (status: nat)
      requires Valid() && u in nodes
      modifies this
      ensures Valid()
      ensures !transactional ==> Current() == old(Current()) && status == 1
      ensures transactional ==>
        Current() == Push(old(Current()), u, n, fails, digest).0 &&
        status == Push(old(Current()), u, n, fails, digest).1
      decreases rank[u]
    {
      if !transactional { return 1; }
      if Pointer(nodes[u].link).None? { return 0; }
      ghost var w := Current();
      PointerIsInMemory(w, u, digest);
      var p := nodes[u].link.value.uuid;
      var m := PushSnapshot(p, n - 1);
      if m != 0 { return m + 1; }
      if n > 0 { return 0; }
      if p in fails { return 1; }
      SaveParent(u, p);
      return 0;
    }

    /** Saves the parent p of u and gives up the pointer to it. */
    method SaveParent(u: Uuid, p: Uuid)
      requires Valid() && u in nodes && nodes[u].PointsTo(p) && p in nodes && Pointer(nodes[p].link).None?
      modifies this
      ensures Valid() && Current() == PushedOne(old(Current()), u, p, digest)
    {
      ghost var w := Current();
      PointerIsInMemory(w, u, digest);
      SaveKeeps(w, p, digest);
      storage := storage[p := nodes[p].ToHashed()];
      ghost var w1 := Current();
      var link := nodes[u].link;
      assert LinkOk(w.nodes, w.storage, w.rank, digest, u);
      RepointKeeps(w1, u, Some(Unloaded(link.value)), digest);
      nodes, held := nodes[u := nodes[u].(link := Some(link.value.(loaded := false)))], Returned(held, link);
      var _ := DecRef(p);
    }
  }

  /** Instances were loaded: what can be retrieved, the storage and the references that are held are the same. */
  ghost predicate Grown(w: World, r: World) {
    && r.storage == w.storage && (forall v {:trigger Found(r, v)} :: Found(r, v) == Found(w, v))
    && forall v {:trigger IsCounted(w, v)} | IsCounted(w, v) :: IsCounted(r, v) && r.held[v] == w.held[v]
  }

  /** What can be retrieved for v. */
  ghost function Found(w: World, v: Uuid): Option<Hashed> {
    if v in w.Retrievable() then Some(w.Retrievable()[v]) else None
  }

  lemma SameFound(w: World, r: World)
    ensures (forall v {:trigger Found(r, v)} :: Found(r, v) == Found(w, v)) <==> r.Retrievable() == w.Retrievable()
  {
    if forall v {:trigger Found(r, v)} :: Found(r, v) == Found(w, v) {
      forall v ensures v in r.Retrievable() <==> v in w.Retrievable() { assert Found(r, v) == Found(w, v); }
      forall v | v in w.Retrievable() ensures r.Retrievable()[v] == w.Retrievable()[v] {
        assert Found(r, v) == Found(w, v);
      }
    }
  }

  ghost predicate IsCounted(w: World, v: Uuid) {
    v in w.nodes && v in w.held
  }

  /** The n-th ancestor of u is the k-th one of v. */
  ghost predicate Leads(view: View, u: Uuid, n: nat, v: Uuid, k: nat) {
    u in view && v in view && Ancestor(view, u, n) == Ancestor(view, v, k)
  }

  lemma LeadsOn(view: View, u: Uuid, n: nat, v: Uuid, k: nat)
    requires Leads(view, u, n, v, k) && k > 0
    ensures var p := Ancestor(view, v, 1);
      if p.None? then Ancestor(view, u, n) == None else Leads(view, u, n, p.value, k - 1)
  {
    if view[v].link.Some? && view[v].link.value.uuid in view {
      assert Ancestor(view, view[v].link.value.uuid, 0).Some?;
    }
  }

  /** A pointer that is set leads to the parent. */
  lemma ParentInMemory(w: World, u: Uuid, digest: Digest)
    requires w.Valid(digest) && u in w.nodes && w.nodes[u].link.Some? && w.nodes[u].link.value.loaded
    ensures var p := w.nodes[u].link.value.uuid;
      p in w.nodes && u in w.Retrievable() && p in w.Retrievable()
      && w.Retrievable()[u].link.Some? && w.Retrievable()[u].link.value.uuid == p
  {
    PointerIsInMemory(w, u, digest);
  }
}
