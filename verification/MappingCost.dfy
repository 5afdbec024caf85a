/** The mapping search finds the cheapest mapping when the rules have no cycles (`dlite-mapping.c`). */
module MappingCost {
  import opened Options
  import opened Mappings
  import opened MappingSearchLimits

  /** No derivation of the URI costs less. */
  ghost predicate IsCheapest(c: Context, u: Uri, cost: int) {
    forall m | IsDerivation(c, m) && m.output == u :: cost <= m.cost
  }

  ghost predicate AllCheapest(c: Context, created: map<Uri, Mapping>) {
    forall u {:trigger IsCheapest(c, u, created[u].cost)} | u in created :: IsCheapest(c, u, created[u].cost)
  }

  /** The best candidate costs no more than any derivation by one of the plugins from `from` up to k. */
  ghost predicate BestOf(c: Context, output: Uri, best: Best, from: nat, k: nat) {
    forall m, j | IsDerivation(c, m) && m.output == output && from <= j < k && j < |c.plugins|
      && c.plugins[j] == m.api.value ::
      best.Cheapest? && best.cost <= m.cost
  }

  /** What holds between the steps of the search. */
  ghost predicate Ready(c: Context, visited: set<Uri>, st: State) {
    && Closed(c, st.created) && st.created.Keys !! visited && AllCheapest(c, st.created)
    && DeadEndsAreDead(c, st.deadEnds)
  }

  lemma {:induction false} CreateIsCheapest(c: Context, output: Uri, visited: set<Uri>, st: State, rank: Uri -> nat)
    requires output !in visited && output !in c.inputs && output !in st.created
    requires Ranked(c, rank) && Above(visited, rank, rank(output)) && Ready(c, visited, st)
    ensures var o := Create(c, output, visited, st);
      !o.r.Aborted? ==> Ready(c, visited, o.st) && (o.r.Found? ==> IsCheapest(c, output, o.r.m.cost))
    decreases c.Outputs() - visited, 2, 0
  {
    CreateIsSound(c, output, visited, st);
    CreateIsComplete(c, output, visited, st, rank);
    var o, r := Create(c, output, visited, st), Rank(c, output, visited, st, 0, NoPlugin);
    if !o.r.Aborted? {
      RankIsCheapest(c, output, visited, st, 0, NoPlugin, rank);
      if r.best.Cheapest? { BestIsCheapest(c, output, r.best); }
    }
  }

  lemma BestIsCheapest(c: Context, output: Uri, best: Best)
    requires best.Cheapest? && BestOf(c, output, best, 0, |c.plugins|)
    ensures IsCheapest(c, output, best.cost)
  {
    forall m | IsDerivation(c, m) && m.output == output ensures best.cost <= m.cost {
      var j :| 0 <= j < |c.plugins| && c.plugins[j] == m.api.value;
    }
  }

  lemma {:induction false} RankIsCheapest(c: Context, output: Uri, visited: set<Uri>, st: State, k: nat, best: Best,
                                          rank: Uri -> nat)
    requires output !in visited && output !in c.inputs && k <= |c.plugins|
    requires Ranked(c, rank) && Above(visited, rank, rank(output)) && Ready(c, visited + {output}, st)
    ensures var r := Rank(c, output, visited, st, k, best);
      !r.aborted ==>
        Ready(c, visited + {output}, r.st) && NotWorse(r.best, best) && BestOf(c, output, r.best, k, |c.plugins|)
    decreases c.Outputs() - visited, 1, |c.plugins| - k
  {
    if k < |c.plugins| {
      var p := c.plugins[k];
      if p.output != output || Ignored(p, visited + {output}, st.deadEnds) {
        RankIsCheapest(c, output, visited, st, k + 1, best, rank);
        SkippedPlugin(c, output, visited, st, k, rank);
      } else {
        var price := Price(c, p, visited, st, 0, p.cost);
        PriceIsCheapest(c, p, visited, st, 0, p.cost, rank, price);
        if !price.aborted {
          PriceUndercuts(c, p, visited, st, rank);
          PricedPlugin(c, output, k, price.cost, best);
          RankIsCheapest(c, output, visited, price.st, k + 1, Better(best, p, price.cost), rank);
        }
      }
    }
  }

  ghost predicate NotWorse(a: Best, b: Best) {
    b.Cheapest? ==> a.Cheapest? && a.cost <= b.cost
  }

  /** A plugin that is ignored derives nothing. */
  lemma SkippedPlugin(c: Context, output: Uri, visited: set<Uri>, st: State, k: nat, rank: Uri -> nat)
    requires k < |c.plugins|
      && (c.plugins[k].output != output || Ignored(c.plugins[k], visited + {output}, st.deadEnds))
    requires Ranked(c, rank) && Above(visited, rank, rank(output)) && DeadEndsAreDead(c, st.deadEnds)
    ensures forall m | IsDerivation(c, m) && m.output == output :: m.api.value != c.plugins[k]
  {
    forall m | IsDerivation(c, m) && m.output == output ensures m.api.value != c.plugins[k] {
      var p := c.plugins[k];
      if m.api.value == p {
        var i :| 0 <= i < |p.inputs| && (p.inputs[i] in visited + {output} || p.inputs[i] in st.deadEnds);
        assert p.inputs[i] in p.inputs && rank(p.inputs[i]) < rank(output);
        SourceIsDerivable(c, m, i);
        assert false;
      }
    }
  }

  lemma SourceIsDerivable(c: Context, m: Mapping, i: nat)
    requires IsDerivation(c, m) && i < |m.sources|
    ensures Derivable(c, m.api.value.inputs[i])
  {
    assert Supplies(c, m.sources[i], m.api.value.inputs[i]) && m.sources[i] in m.sources;
  }

  /** The price of plugin k is at most what a derivation by it costs. */
  ghost predicate Undercuts(c: Context, p: Plugin, price: Option<int>) {
    forall m | IsDerivation(c, m) && m.api == Some(p) :: price.Some? && price.value <= m.cost
  }

  lemma PricedPlugin(c: Context, output: Uri, k: nat, price: Option<int>, best: Best)
    requires k < |c.plugins| && c.plugins[k].output == output && Undercuts(c, c.plugins[k], price)
    ensures NotWorse(Better(best, c.plugins[k], price), best)
    ensures forall m, r | IsDerivation(c, m) && m.api == Some(c.plugins[k])
      && NotWorse(r, Better(best, c.plugins[k], price)) ::
      r.Cheapest? && r.cost <= m.cost
  {}

  /** A cost that is not above that of the first i steps of a derivation leads to a price not above it. */
  ghost predicate Bound(c: Context, p: Plugin, i: nat, cost: int, price: int) {
    forall m | IsDerivation(c, m) && m.api == Some(p) && i <= |m.sources|
      && cost <= p.cost + SubCosts(m.sources[..i]) ::
      price <= m.cost
  }

  lemma BoundStep(c: Context, p: Plugin, i: nat, cost: int, sub: int, price: int)
    requires i < |p.inputs| && Bound(c, p, i + 1, cost + sub, price)
    requires if p.inputs[i] in c.inputs then sub == 0 else IsCheapest(c, p.inputs[i], sub)
    ensures Bound(c, p, i, cost, price)
  {
    forall m | IsDerivation(c, m) && m.api == Some(p) && i <= |m.sources| && cost <= p.cost + SubCosts(m.sources[..i])
      ensures price <= m.cost
    {
      var s := m.sources[i];
      assert Supplies(c, s, p.inputs[i]) && s in m.sources;
      assert m.sources[..i + 1][..i] == m.sources[..i];
      assert sub <= SubCost(s);
    }
  }

  lemma BoundEnd(c: Context, p: Plugin, cost: int)
    ensures Bound(c, p, |p.inputs|, cost, cost)
  {
    forall m | IsDerivation(c, m) && m.api == Some(p) && cost <= p.cost + SubCosts(m.sources[..|p.inputs|])
      ensures cost <= m.cost
    {
      assert m.sources[..|p.inputs|] == m.sources;
    }
  }

  ghost predicate Fine(c: Context, p: Plugin, visited: set<Uri>, i: nat, cost: int, price: Pricing) {
    !price.aborted ==>
      Ready(c, visited + {p.output}, price.st) && (price.cost.Some? ==> Bound(c, p, i, cost, price.cost.value))
  }

  lemma FineStep(c: Context, p: Plugin, visited: set<Uri>, i: nat, cost: int, sub: int, price: Pricing)
    requires i < |p.inputs| && Fine(c, p, visited, i + 1, cost + sub, price)
    requires if p.inputs[i] in c.inputs then sub == 0 else IsCheapest(c, p.inputs[i], sub)
    ensures Fine(c, p, visited, i, cost, price)
  {
    if !price.aborted && price.cost.Some? { BoundStep(c, p, i, cost, sub, price.cost.value); }
  }

  lemma {:induction false} PriceIsCheapest(c: Context, p: Plugin, visited: set<Uri>, st: State, i: nat, cost: int,
                                           rank: Uri -> nat, price: Pricing)
    requires p in c.plugins && p.output !in visited && i <= |p.inputs| && !Ignored(p, visited + {p.output}, {})
    requires Ranked(c, rank) && Above(visited, rank, rank(p.output)) && Ready(c, visited + {p.output}, st)
    requires price == Price(c, p, visited, st, i, cost)
    ensures Fine(c, p, visited, i, cost, price)
    decreases c.Outputs() - visited, 0, |p.inputs| - i
  {
    if i == |p.inputs| {
      BoundEnd(c, p, cost);
    } else if p.inputs[i] in c.inputs {
      PriceIsCheapest(c, p, visited, st, i + 1, cost, rank, price);
      FineStep(c, p, visited, i, cost, 0, price);
    } else {
      PriceThroughSource(c, p, visited, st, i, cost, rank, price);
    }
  }

  lemma {:induction false} PriceThroughSource(c: Context, p: Plugin, visited: set<Uri>, st: State, i: nat, cost: int,
                                              rank: Uri -> nat, price: Pricing)
    requires p in c.plugins && p.output !in visited && i < |p.inputs| && !Ignored(p, visited + {p.output}, {})
    requires Ranked(c, rank) && Above(visited, rank, rank(p.output)) && Ready(c, visited + {p.output}, st)
    requires p.inputs[i] !in c.inputs && price == Price(c, p, visited, st, i, cost)
    ensures Fine(c, p, visited, i, cost, price)
    decreases c.Outputs() - visited, 0, |p.inputs| - i, 2
  {
    var sub := SourceGives(c, p, visited, st, i, cost, rank, price);
    if !price.aborted && sub.r.Found? {
      PriceAfterSource(c, p, visited, sub.st, i, cost, sub.r.m.cost, rank, price);
    }
  }

  /** The sub-mapping for input i and the price that it leads to. */
  lemma {:induction false} SourceGives(c: Context, p: Plugin, visited: set<Uri>, st: State, i: nat, cost: int,
                                       rank: Uri -> nat, price: Pricing)
    returns (sub: Outcome)
    requires p in c.plugins && p.output !in visited && i < |p.inputs| && !Ignored(p, visited + {p.output}, {})
    requires Ranked(c, rank) && Above(visited, rank, rank(p.output)) && Ready(c, visited + {p.output}, st)
    requires p.inputs[i] !in c.inputs && price == Price(c, p, visited, st, i, cost)
    ensures !price.aborted ==> Ready(c, visited + {p.output}, sub.st)
    ensures !price.aborted && !sub.r.Found? ==> price == Pricing(None, false, sub.st)
    ensures !price.aborted && sub.r.Found? ==>
      IsCheapest(c, p.inputs[i], sub.r.m.cost) && price == Price(c, p, visited, sub.st, i + 1, cost + sub.r.m.cost)
    decreases c.Outputs() - visited, 0, |p.inputs| - i, 1
  {
    SourceIsCheapest(c, p, visited, st, i, rank);
    PriceStep(c, p, visited, st, i, cost);
    sub := SourceOutcome(c, p, visited, st, i);
  }

  lemma {:induction false} PriceAfterSource(c: Context, p: Plugin, visited: set<Uri>, st: State, i: nat, cost: int,
                                            sub: int, rank: Uri -> nat, price: Pricing)
    requires p in c.plugins && p.output !in visited && i < |p.inputs| && !Ignored(p, visited + {p.output}, {})
    requires Ranked(c, rank) && Above(visited, rank, rank(p.output)) && Ready(c, visited + {p.output}, st)
    requires p.inputs[i] !in c.inputs && IsCheapest(c, p.inputs[i], sub)
    requires price == Price(c, p, visited, st, i + 1, cost + sub)
    ensures Fine(c, p, visited, i, cost, price)
    decreases c.Outputs() - visited, 0, |p.inputs| - i, 0
  {
    PriceIsCheapest(c, p, visited, st, i + 1, cost + sub, rank, price);
    FineStep(c, p, visited, i, cost, sub, price);
  }

  lemma {:induction false} SourceIsCheapest(c: Context, p: Plugin, visited: set<Uri>, st: State, i: nat,
                                            rank: Uri -> nat)
    requires p in c.plugins && p.output !in visited && i < |p.inputs| && !Ignored(p, visited + {p.output}, {})
    requires Ranked(c, rank) && Above(visited, rank, rank(p.output)) && Ready(c, visited + {p.output}, st)
    requires p.inputs[i] !in c.inputs
    ensures var sub := SourceOutcome(c, p, visited, st, i);
      && (!sub.r.Aborted? ==> Ready(c, visited + {p.output}, sub.st))
      && (sub.r.Found? ==> IsCheapest(c, p.inputs[i], sub.r.m.cost))
    decreases c.Outputs() - visited, 0, |p.inputs| - i, 0
  {
    var u := p.inputs[i];
    if u !in st.created {
      assert p.output in c.Outputs() - visited && u in p.inputs && rank(u) < rank(p.output);
      CreateIsCheapest(c, u, visited + {p.output}, st, rank);
    }
  }

  lemma PriceUndercuts(c: Context, p: Plugin, visited: set<Uri>, st: State, rank: Uri -> nat)
    requires p in c.plugins && p.output !in visited && !Ignored(p, visited + {p.output}, {})
    requires Ranked(c, rank) && Above(visited, rank, rank(p.output)) && DeadEndsAreDead(c, st.deadEnds)
    requires var price := Price(c, p, visited, st, 0, p.cost); !price.aborted && Fine(c, p, visited, 0, p.cost, price)
    ensures Undercuts(c, p, Price(c, p, visited, st, 0, p.cost).cost)
  {
    PriceIsComplete(c, p, visited, st, 0, p.cost, rank);
    forall m | IsDerivation(c, m) && m.api == Some(p)
      ensures Price(c, p, visited, st, 0, p.cost).cost.Some? && Price(c, p, visited, st, 0, p.cost).cost.value <= m.cost
    {
      forall u | u in p.inputs ensures Derivable(c, u) {
        var i :| 0 <= i < |p.inputs| && p.inputs[i] == u;
        SourceIsDerivable(c, m, i);
      }
      assert m.sources[..0] == [];
    }
  }

  /** For acyclic rules the mapping that is found is a cheapest one. */
  lemma SearchFindsCheapest(c: Context, output: Uri, rank: Uri -> nat)
    requires Ranked(c, rank) && CreateBase(c, output).Found?
    ensures forall m | IsDerivation(c, m) && m.output == output :: CreateBase(c, output).m.cost <= m.cost
  {
    if output !in c.inputs {
      CreateIsCheapest(c, output, {}, State(map[], {}), rank);
      assert IsCheapest(c, output, CreateBase(c, output).m.cost);
    }
  }
}
