/** How far the mapping search reaches: complete for rules without cycles, locally cheapest, and not
    complete in general. */
module MappingSearchLimits {
  import opened Options
  import opened Mappings

  // ----- Rules without cycles -----

  /** The rank of every rule's inputs is below that of its output. */
  ghost predicate Ranked(c: Context, rank: Uri -> nat) {
    forall p, u | p in c.plugins && u in p.inputs :: rank(u) < rank(p.output)
  }

  ghost predicate Derivable(c: Context, u: Uri) {
    u in c.inputs || exists m :: IsDerivation(c, m) && m.output == u
  }

  ghost predicate DeadEndsAreDead(c: Context, deadEnds: set<Uri>) {
    forall u | u in deadEnds :: !Derivable(c, u)
  }

  ghost predicate Realisable(c: Context, p: Plugin) {
    forall u | u in p.inputs :: Derivable(c, u)
  }

  ghost predicate Above(visited: set<Uri>, rank: Uri -> nat, r: nat) {
    forall v | v in visited :: r < rank(v)
  }

  /** A URI is derivable only through a plugin all of whose inputs are. */
  lemma DerivableIff(c: Context, u: Uri)
    requires u !in c.inputs && Derivable(c, u)
    ensures exists k :: 0 <= k < |c.plugins| && c.plugins[k].output == u && Realisable(c, c.plugins[k])
  {
    var m :| IsDerivation(c, m) && m.output == u;
    var p := m.api.value;
    forall v | v in p.inputs ensures Derivable(c, v) {
      var i :| 0 <= i < |p.inputs| && p.inputs[i] == v;
      assert Supplies(c, m.sources[i], v) && m.sources[i] in m.sources;
    }
    assert Realisable(c, p);
  }

  lemma {:induction false} CreateIsComplete(c: Context, output: Uri, visited: set<Uri>, st: State, rank: Uri -> nat)
    requires output !in visited && output !in c.inputs && Ranked(c, rank) && Above(visited, rank, rank(output))
    requires DeadEndsAreDead(c, st.deadEnds)
    ensures var o := Create(c, output, visited, st);
      !o.r.Aborted? ==> DeadEndsAreDead(c, o.st.deadEnds) && (o.r.NotFound? ==> !Derivable(c, output))
    decreases c.Outputs() - visited, 2, 0
  {
    if !(c.checked && (output in c.inputs || output in st.deadEnds)) {
      RankIsComplete(c, output, visited, st, 0, NoPlugin, rank);
      if Derivable(c, output) { DerivableIff(c, output); }
    }
  }

  lemma {:induction false} RankIsComplete(c: Context, output: Uri, visited: set<Uri>, st: State, k: nat, best: Best,
                                          rank: Uri -> nat)
    requires output !in visited && k <= |c.plugins| && Ranked(c, rank) && Above(visited, rank, rank(output))
    requires DeadEndsAreDead(c, st.deadEnds)
    ensures var r := Rank(c, output, visited, st, k, best);
      && (!r.aborted ==> DeadEndsAreDead(c, r.st.deadEnds))
      && (!r.aborted && r.best.NoPlugin? ==>
            best.NoPlugin? &&
            forall j | k <= j < |c.plugins| && c.plugins[j].output == output :: !Realisable(c, c.plugins[j]))
    decreases c.Outputs() - visited, 1, |c.plugins| - k
  {
    if k < |c.plugins| {
      var p := c.plugins[k];
      if p.output != output || Ignored(p, visited + {output}, st.deadEnds) {
        if p.output == output {
          var i :| 0 <= i < |p.inputs| && (p.inputs[i] in visited + {output} || p.inputs[i] in st.deadEnds);
          assert p.inputs[i] in p.inputs && rank(p.inputs[i]) < rank(output);
        }
        RankIsComplete(c, output, visited, st, k + 1, best, rank);
      } else {
        var price := Price(c, p, visited, st, 0, p.cost);
        PriceIsComplete(c, p, visited, st, 0, p.cost, rank);
        if !price.aborted { RankIsComplete(c, output, visited, price.st, k + 1, Better(best, p, price.cost), rank); }
      }
    }
  }

  lemma {:induction false} PriceIsComplete(c: Context, p: Plugin, visited: set<Uri>, st: State, i: nat, cost: int,
                                           rank: Uri -> nat)
    requires p in c.plugins && p.output !in visited && i <= |p.inputs| && !Ignored(p, visited + {p.output}, {})
    requires Ranked(c, rank) && Above(visited, rank, rank(p.output)) && DeadEndsAreDead(c, st.deadEnds)
    ensures var price := Price(c, p, visited, st, i, cost);
      && (!price.aborted ==> DeadEndsAreDead(c, price.st.deadEnds))
      && (!price.aborted && price.cost.None? ==> !Realisable(c, p))
    decreases c.Outputs() - visited, 0, |p.inputs| - i
  {
    if i < |p.inputs| {
      var u := p.inputs[i];
      assert u in p.inputs && rank(u) < rank(p.output);
      if u in c.inputs {
        PriceIsComplete(c, p, visited, st, i + 1, cost, rank);
      } else if u in st.created {
        if !(c.checked && st.created[u].cost < 0) {
          PriceIsComplete(c, p, visited, st, i + 1, cost + st.created[u].cost, rank);
        }
      } else {
        assert p.output in c.Outputs() - visited;
        var sub := Create(c, u, visited + {p.output}, st);
        CreateIsComplete(c, u, visited + {p.output}, st, rank);
        if sub.r.Found? && !(c.checked && sub.r.m.cost < 0) {
          PriceIsComplete(c, p, visited, sub.st, i + 1, cost + sub.r.m.cost, rank);
        }
      }
    }
  }

  /** Without cyclic rules the search finds a mapping exactly if there is a derivation, unless an assertion
      stops it. */
  lemma CompleteUnlessAborted(c: Context, output: Uri, rank: Uri -> nat)
    requires Ranked(c, rank) && !CreateBase(c, output).Aborted?
    ensures CreateBase(c, output).Found? <==> Derivable(c, output)
  {
    if output !in c.inputs {
      CreateIsComplete(c, output, {}, State(map[], {}), rank);
      if CreateBase(c, output).Found? { SearchIsSound(c, output); }
    }
  }

  // ----- Plugins with one input to be derived -----

  /** The assertions are off, or each plugin needs at most one URI that is not an input, and no
      cost is negative. */
  ghost predicate Safe(c: Context) {
    c.checked ==> forall p | p in c.plugins ::
      p.cost >= 0 && forall i, j | 0 <= i < j < |p.inputs| :: p.inputs[i] in c.inputs || p.inputs[j] in c.inputs
  }

  ghost predicate NoneNegative(c: Context, created: map<Uri, Mapping>) {
    c.checked ==> forall u | u in created :: created[u].cost >= 0
  }

  /** What is still needed from input i on is not a dead end. */
  ghost predicate Open(c: Context, p: Plugin, i: nat, deadEnds: set<Uri>) {
    c.checked ==> forall j | i <= j < |p.inputs| :: p.inputs[j] in c.inputs || p.inputs[j] !in deadEnds
  }

  lemma {:induction false} CreateNeverAborts(c: Context, output: Uri, visited: set<Uri>, st: State)
    requires output !in visited && Safe(c) && NoneNegative(c, st.created)
    requires c.checked ==> output !in c.inputs && output !in st.deadEnds
    ensures var o := Create(c, output, visited, st);
      !o.r.Aborted? && NoneNegative(c, o.st.created) && (c.checked && o.r.Found? ==> o.r.m.cost >= 0)
    decreases c.Outputs() - visited, 2, 0
  {
    RankNeverAborts(c, output, visited, st, 0, NoPlugin);
  }

  lemma {:induction false} RankNeverAborts(c: Context, output: Uri, visited: set<Uri>, st: State, k: nat, best: Best)
    requires output !in visited && k <= |c.plugins| && Safe(c) && NoneNegative(c, st.created)
    requires c.checked && best.Cheapest? ==> best.cost >= 0
    ensures var r := Rank(c, output, visited, st, k, best);
      !r.aborted && NoneNegative(c, r.st.created) && (c.checked && r.best.Cheapest? ==> r.best.cost >= 0)
    decreases c.Outputs() - visited, 1, |c.plugins| - k
  {
    if k < |c.plugins| {
      var p := c.plugins[k];
      if p.output != output || Ignored(p, visited + {output}, st.deadEnds) {
        RankNeverAborts(c, output, visited, st, k + 1, best);
      } else {
        PriceNeverAborts(c, p, visited, st, 0, p.cost);
        var price := Price(c, p, visited, st, 0, p.cost);
        RankNeverAborts(c, output, visited, price.st, k + 1, Better(best, p, price.cost));
      }
    }
  }

  lemma {:induction false} PriceNeverAborts(c: Context, p: Plugin, visited: set<Uri>, st: State, i: nat, cost: int)
    requires p in c.plugins && p.output !in visited && i <= |p.inputs| && !Ignored(p, visited + {p.output}, {})
    requires Safe(c) && NoneNegative(c, st.created) && Open(c, p, i, st.deadEnds) && (c.checked ==> cost >= 0)
    ensures var price := Price(c, p, visited, st, i, cost);
      !price.aborted && NoneNegative(c, price.st.created) && (c.checked && price.cost.Some? ==> price.cost.value >= 0)
    decreases c.Outputs() - visited, 0, |p.inputs| - i
  {
    if i < |p.inputs| {
      var u := p.inputs[i];
      if u in c.inputs {
        PriceNeverAborts(c, p, visited, st, i + 1, cost);
      } else if u in st.created {
        PriceNeverAborts(c, p, visited, st, i + 1, cost + st.created[u].cost);
      } else {
        assert p.output in c.Outputs() - visited;
        CreateNeverAborts(c, u, visited + {p.output}, st);
        var sub := Create(c, u, visited + {p.output}, st);
        if sub.r.Found? { PriceNeverAborts(c, p, visited, sub.st, i + 1, cost + sub.r.m.cost); }
      }
    }
  }

  /** No assertion stops the search if each plugin needs at most one URI that is not an input, also for rules
      with cycles. */
  lemma SimpleSearchNeverAborts(c: Context, output: Uri)
    requires Safe(c)
    ensures !CreateBase(c, output).Aborted?
  {
    if output !in c.inputs { CreateNeverAborts(c, output, {}, State(map[], {})); }
  }

  // ----- When no assertion stops the search -----

  /** Of the inputs of a plugin, the first that cannot be derived is the first that is not given. */
  ghost predicate FailsFirst(c: Context, p: Plugin) {
    forall j | 0 <= j < |p.inputs| && !Derivable(c, p.inputs[j]) && FirstOf(c, p, j) ::
      forall i | 0 <= i < j :: p.inputs[i] in c.inputs
  }

  /** All inputs before number j can be derived. */
  ghost predicate FirstOf(c: Context, p: Plugin, j: nat)
    requires j <= |p.inputs|
  {
    forall i | 0 <= i < j :: Derivable(c, p.inputs[i])
  }

  /** The assertions are off, or no cost is negative and plugins fail at the first input to be derived or not
      at all. */
  ghost predicate Orderly(c: Context) {
    c.checked ==> forall p | p in c.plugins :: p.cost >= 0 && FailsFirst(c, p)
  }

  /** The table of mappings holds derivations of URIs that are not being visited, none of them at a negative
      cost. */
  ghost predicate SoundTable(c: Context, visited: set<Uri>, created: map<Uri, Mapping>) {
    Closed(c, created) && created.Keys !! visited && NoneNegative(c, created)
  }

  lemma EntryIsDerivable(c: Context, created: map<Uri, Mapping>, u: Uri)
    requires Closed(c, created) && u in created
    ensures Derivable(c, u)
  {
    PartsAreEntries(c, created, created[u]);
  }

  lemma {:induction false} OrderlyCreate(c: Context, output: Uri, visited: set<Uri>, st: State, rank: Uri -> nat)
    requires output !in visited && output !in c.inputs && Ranked(c, rank) && Above(visited, rank, rank(output))
    requires Orderly(c) && DeadEndsAreDead(c, st.deadEnds) && SoundTable(c, visited, st.created)
      && output !in st.created
    requires c.checked ==> output !in st.deadEnds
    ensures var o := Create(c, output, visited, st);
      && !o.r.Aborted? && SoundTable(c, visited, o.st.created) && DeadEndsAreDead(c, o.st.deadEnds)
      && (o.r.Found? ==> Derivable(c, output)) && (c.checked && o.r.Found? ==> o.r.m.cost >= 0)
    decreases c.Outputs() - visited, 2, 0
  {
    OrderlyRank(c, output, visited, st, 0, NoPlugin, rank);
    CreateIsSound(c, output, visited, st);
    CreateIsComplete(c, output, visited, st, rank);
    var o := Create(c, output, visited, st);
    if o.r.Found? { EntryIsDerivable(c, o.st.created, output); }
  }

  lemma {:induction false} OrderlyRank(c: Context, output: Uri, visited: set<Uri>, st: State, k: nat, best: Best,
                                       rank: Uri -> nat)
    requires output !in visited && k <= |c.plugins| && Ranked(c, rank) && Above(visited, rank, rank(output))
    requires Orderly(c) && DeadEndsAreDead(c, st.deadEnds) && SoundTable(c, visited + {output}, st.created)
    requires c.checked && best.Cheapest? ==> best.cost >= 0
    ensures var r := Rank(c, output, visited, st, k, best);
      !r.aborted && NoneNegative(c, r.st.created) && (c.checked && r.best.Cheapest? ==> r.best.cost >= 0)
    decreases c.Outputs() - visited, 1, |c.plugins| - k
  {
    if k < |c.plugins| {
      var p := c.plugins[k];
      if p.output != output || Ignored(p, visited + {output}, st.deadEnds) {
        OrderlyRank(c, output, visited, st, k + 1, best, rank);
      } else {
        var price := Price(c, p, visited, st, 0, p.cost);
        OrderlyPrice(c, p, visited, st, 0, p.cost, rank, price);
        OrderlyRank(c, output, visited, price.st, k + 1, Better(best, p, price.cost), rank);
      }
    }
  }

  /** The inputs before number i have been derived; as long as all of them were given, no dead ends have been
      added since the plugin was taken up. */
  ghost predicate Progress(c: Context, p: Plugin, i: nat, deadEnds: set<Uri>)
    requires i <= |p.inputs|
  {
    FirstOf(c, p, i) && ((forall j | 0 <= j < i :: p.inputs[j] in c.inputs) ==> Open(c, p, i, deadEnds))
  }

  lemma ProgressStep(c: Context, p: Plugin, i: nat, before: set<Uri>, after: set<Uri>)
    requires i < |p.inputs| && Progress(c, p, i, before) && Derivable(c, p.inputs[i])
    requires p.inputs[i] in c.inputs ==> after == before
    ensures Progress(c, p, i + 1, after)
  {}

  lemma InputIsOpen(c: Context, p: Plugin, i: nat, deadEnds: set<Uri>)
    requires p in c.plugins && i < |p.inputs| && p.inputs[i] !in c.inputs && Orderly(c)
    requires DeadEndsAreDead(c, deadEnds) && Progress(c, p, i, deadEnds)
    ensures c.checked ==> p.inputs[i] !in deadEnds
  {
    assert c.checked ==> FailsFirst(c, p);
  }

  /** What holds before input i of a plugin is looked at. */
  ghost predicate BeforeInput(c: Context, p: Plugin, visited: set<Uri>, st: State, i: nat)
    requires i <= |p.inputs|
  {
    SoundTable(c, visited + {p.output}, st.created) && DeadEndsAreDead(c, st.deadEnds) && Progress(c, p, i, st.deadEnds)
  }

  ghost predicate Usable(c: Context, p: Plugin, visited: set<Uri>, rank: Uri -> nat) {
    && p in c.plugins && p.output !in visited && !Ignored(p, visited + {p.output}, {})
    && Ranked(c, rank) && Above(visited, rank, rank(p.output)) && Orderly(c)
  }

  /** The price is that of a search that has not been aborted. */
  ghost predicate GoodPrice(c: Context, p: Plugin, visited: set<Uri>, price: Pricing) {
    && !price.aborted && SoundTable(c, visited + {p.output}, price.st.created) && DeadEndsAreDead(c, price.st.deadEnds)
    && (c.checked && price.cost.Some? ==> price.cost.value >= 0)
  }

  lemma {:induction false} OrderlyPrice(c: Context, p: Plugin, visited: set<Uri>, st: State, i: nat, cost: int,
                                        rank: Uri -> nat, price: Pricing)
    requires Usable(c, p, visited, rank) && i <= |p.inputs| && BeforeInput(c, p, visited, st, i)
      && (c.checked ==> cost >= 0)
    requires price == Price(c, p, visited, st, i, cost)
    ensures GoodPrice(c, p, visited, price)
    decreases c.Outputs() - visited, 0, |p.inputs| - i
  {
    if i < |p.inputs| {
      if p.inputs[i] in c.inputs {
        GivenInput(c, p, visited, st, i);
        OrderlyPrice(c, p, visited, st, i + 1, cost, rank, price);
      } else {
        OrderlyThroughSource(c, p, visited, st, i, cost, rank, price);
      }
    }
  }

  lemma {:induction false} OrderlyThroughSource(c: Context, p: Plugin, visited: set<Uri>, st: State, i: nat, cost: int,
                                                rank: Uri -> nat, price: Pricing)
    requires Usable(c, p, visited, rank) && i < |p.inputs| && BeforeInput(c, p, visited, st, i)
      && (c.checked ==> cost >= 0)
    requires p.inputs[i] !in c.inputs && price == Price(c, p, visited, st, i, cost)
    ensures GoodPrice(c, p, visited, price)
    decreases c.Outputs() - visited, 0, |p.inputs| - i, 1
  {
    OrderlySource(c, p, visited, st, i, rank);
    PriceStep(c, p, visited, st, i, cost);
    var sub := SourceOutcome(c, p, visited, st, i);
    if sub.r.Found? { OrderlyPrice(c, p, visited, sub.st, i + 1, cost + sub.r.m.cost, rank, price); }
  }

  lemma GivenInput(c: Context, p: Plugin, visited: set<Uri>, st: State, i: nat)
    requires i < |p.inputs| && p.inputs[i] in c.inputs && BeforeInput(c, p, visited, st, i)
    ensures BeforeInput(c, p, visited, st, i + 1)
  {
    ProgressStep(c, p, i, st.deadEnds, st.deadEnds);
  }

  /** The sub-mapping for input i: it is there, or it is searched. */
  function SourceOutcome(c: Context, p: Plugin, visited: set<Uri>, st: State, i: nat): Outcome
    requires i < |p.inputs| && !Ignored(p, visited + {p.output}, {})
  {
    var u := p.inputs[i];
    if u in st.created then Outcome(Found(st.created[u]), st) else Create(c, u, visited + {p.output}, st)
  }

  lemma PriceStep(c: Context, p: Plugin, visited: set<Uri>, st: State, i: nat, cost: int)
    requires p in c.plugins && p.output !in visited && i < |p.inputs| && !Ignored(p, visited + {p.output}, {})
    requires p.inputs[i] !in c.inputs
    ensures var sub, price := SourceOutcome(c, p, visited, st, i), Price(c, p, visited, st, i, cost);
      && (sub.r.Aborted? ==> price.aborted)
      && (sub.r.NotFound? ==> price == Pricing(None, false, sub.st))
      && (sub.r.Found? && c.checked && sub.r.m.cost < 0 ==> price.aborted)
      && (sub.r.Found? && !(c.checked && sub.r.m.cost < 0) ==>
            price == Price(c, p, visited, sub.st, i + 1, cost + sub.r.m.cost))
  {}

  lemma {:induction false} OrderlySource(c: Context, p: Plugin, visited: set<Uri>, st: State, i: nat, rank: Uri -> nat)
    requires Usable(c, p, visited, rank) && i < |p.inputs| && p.inputs[i] !in c.inputs
      && BeforeInput(c, p, visited, st, i)
    ensures var sub := SourceOutcome(c, p, visited, st, i);
      && !sub.r.Aborted? && SoundTable(c, visited + {p.output}, sub.st.created) && DeadEndsAreDead(c, sub.st.deadEnds)
      && (c.checked && sub.r.Found? ==> sub.r.m.cost >= 0)
      && (sub.r.Found? ==> BeforeInput(c, p, visited, sub.st, i + 1))
    decreases c.Outputs() - visited, 0, |p.inputs| - i, 0
  {
    var u := p.inputs[i];
    if u in st.created {
      EntryIsDerivable(c, st.created, u);
      ProgressStep(c, p, i, st.deadEnds, st.deadEnds);
    } else {
      assert p.output in c.Outputs() - visited && u in p.inputs && rank(u) < rank(p.output);
      InputIsOpen(c, p, i, st.deadEnds);
      OrderlyCreate(c, u, visited + {p.output}, st, rank);
      var sub := Create(c, u, visited + {p.output}, st);
      if sub.r.Found? { ProgressStep(c, p, i, st.deadEnds, sub.st.deadEnds); }
    }
  }

  /** No assertion stops the search for acyclic rules without negative costs if each plugin fails at the first
      input to be derived or not at all. */
  lemma SearchNeverAborts(c: Context, output: Uri, rank: Uri -> nat)
    requires Ranked(c, rank) && Orderly(c)
    ensures !CreateBase(c, output).Aborted?
  {
    if output !in c.inputs { OrderlyCreate(c, output, {}, State(map[], {}), rank); }
  }

  /** For such rules the search finds a mapping exactly if there is a derivation. */
  lemma CompleteForAcyclicRules(c: Context, output: Uri, rank: Uri -> nat)
    requires Ranked(c, rank) && Orderly(c)
    ensures CreateBase(c, output).Found? <==> Derivable(c, output)
  {
    SearchNeverAborts(c, output, rank);
    CompleteUnlessAborted(c, output, rank);
  }

  // ----- The choice between plugins -----

  /** The costs offered for the output by the plugins from k on; None for plugins that are not usable. */
  function Offers(c: Context, output: Uri, visited: set<Uri>, st: State, k: nat): seq<Option<int>>
    requires output !in visited && k <= |c.plugins|
    decreases |c.plugins| - k
  {
    if k == |c.plugins| then []
    else
      var p := c.plugins[k];
      if p.output != output || Ignored(p, visited + {output}, st.deadEnds) then
        [None] + Offers(c, output, visited, st, k + 1)
      else
        var price := Price(c, p, visited, st, 0, p.cost);
        [price.cost] + Offers(c, output, visited, price.st, k + 1)
  }

  /** No offer is below the given cost. */
  ghost predicate NoneCheaper(offers: seq<Option<int>>, cost: int) {
    forall j | 0 <= j < |offers| && offers[j].Some? :: cost <= offers[j].value
  }

  /** Offer j has the given cost, and everything before it is more expensive. */
  ghost predicate FirstAt(best: Best, offers: seq<Option<int>>, cost: int, j: nat) {
    && j < |offers| && offers[j] == Some(cost) && (best.Cheapest? ==> cost < best.cost)
    && forall i | 0 <= i < j && offers[i].Some? :: cost < offers[i].value
  }

  /** The best of the earlier candidate and the offers is the first one with the least cost. */
  ghost predicate IsFirstCheapest(c: Context, r: Best, best: Best, offers: seq<Option<int>>, k: nat)
    requires k + |offers| == |c.plugins|
  {
    match r
    case NoPlugin => best.NoPlugin? && forall j | 0 <= j < |offers| :: offers[j].None?
    case Cheapest(p, cost) =>
      && (best.Cheapest? ==> cost <= best.cost) && NoneCheaper(offers, cost)
      && (r == best || exists j: nat :: FirstAt(best, offers, cost, j) && c.plugins[k + j] == p)
  }

  /** The search picks the first of the cheapest usable plugins, and none only if none is usable. */
  lemma {:induction false} RankPicksFirstCheapest(c: Context, output: Uri, visited: set<Uri>, st: State, k: nat,
                                                  best: Best)
    requires output !in visited && k <= |c.plugins| && !Rank(c, output, visited, st, k, best).aborted
    ensures k + |Offers(c, output, visited, st, k)| == |c.plugins|
    ensures IsFirstCheapest(c, Rank(c, output, visited, st, k, best).best, best, Offers(c, output, visited, st, k), k)
    decreases |c.plugins| - k
  {
    if k < |c.plugins| {
      var p := c.plugins[k];
      var r := Rank(c, output, visited, st, k, best).best;
      var offers := Offers(c, output, visited, st, k);
      if p.output != output || Ignored(p, visited + {output}, st.deadEnds) {
        RankPicksFirstCheapest(c, output, visited, st, k + 1, best);
        OneMoreOffer(c, r, best, best, None, offers[1..], k);
      } else {
        var price := Price(c, p, visited, st, 0, p.cost);
        RankPicksFirstCheapest(c, output, visited, price.st, k + 1, Better(best, p, price.cost));
        OneMoreOffer(c, r, best, Better(best, p, price.cost), price.cost, offers[1..], k);
      }
      assert offers == [offers[0]] + offers[1..];
    }
  }

  lemma OneMoreOffer(c: Context, r: Best, best: Best, next: Best, offer: Option<int>, offers: seq<Option<int>>, k: nat)
    requires k + 1 + |offers| == |c.plugins| && IsFirstCheapest(c, r, next, offers, k + 1)
    requires next == Better(best, c.plugins[k], offer)
    ensures IsFirstCheapest(c, r, best, [offer] + offers, k)
  {
    var all := [offer] + offers;
    assert all[1..] == offers;
    if r.Cheapest? {
      assert NoneCheaper(all, r.cost);
      if r != best {
        if r == next {
          assert FirstAt(best, all, r.cost, 0);
        } else {
          var j: nat :| FirstAt(next, offers, r.cost, j) && c.plugins[k + 1 + j] == r.p;
          assert FirstAt(best, all, r.cost, j + 1);
        }
      }
    }
  }
}
