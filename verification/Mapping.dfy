/** Search for a mapping (`dlite-mapping.c`): a depth-first search over the registered conversion rules
    with sets of visited URIs and dead ends and a table of created mappings. */
module Mappings {
  import opened Options

  type Uri = string

  /** A registered mapping plugin. */
  datatype Plugin = Plugin(name: string, output: Uri, inputs: seq<Uri>, cost: int)

  /** A mapping; without a plugin it stands for the trivial case where the output is one of the inputs. */
  datatype Mapping = Mapping(api: Option<Plugin>, output: Uri, sources: seq<Source>, cost: int)

  datatype Source = FromInput(uri: Uri) | FromMapping(m: Mapping)

  /** What stays fixed during a search.  With `checked` the assertions in the source are active. */
  datatype Context = Context(plugins: seq<Plugin>, inputs: set<Uri>, checked: bool) {
    function Outputs(): set<Uri> {
      set p | p in plugins :: p.output
    }
  }

  datatype State = State(created: map<Uri, Mapping>, deadEnds: set<Uri>)

  datatype Result = Found(m: Mapping) | NotFound | Aborted

  datatype Outcome = Outcome(r: Result, st: State)

  /** Best candidate so far. */
  datatype Best = NoPlugin | Cheapest(p: Plugin, cost: int)

  datatype Ranking = Ranking(best: Best, aborted: bool, st: State)

  /** Cost of one candidate; None when one of its inputs cannot be realised. */
  datatype Pricing = Pricing(cost: Option<int>, aborted: bool, st: State)

  predicate Ignored(p: Plugin, visited: set<Uri>, deadEnds: set<Uri>) {
    exists i | 0 <= i < |p.inputs| :: p.inputs[i] in visited || p.inputs[i] in deadEnds
  }

  /** mapping_create_rec(). */
  function Create(c: Context, output: Uri, visited: set<Uri>, st: State): Outcome
    requires output !in visited
    decreases c.Outputs() - visited, 2, 0
  {
    if c.checked && (output in c.inputs || output in st.deadEnds) then Outcome(Aborted, st)
    else
      var rank := Rank(c, output, visited, st, 0, NoPlugin);
      if rank.aborted then Outcome(Aborted, rank.st)
      else match rank.best
        case NoPlugin => Outcome(NotFound, rank.st.(deadEnds := rank.st.deadEnds + {output}))
        case Cheapest(p, cost) =>
          var m := Build(c, p, cost, rank.st.created);
          Outcome(Found(m), rank.st.(created := rank.st.created[output := m]))
  }

  /** The loop over the plugins, from plugin k on. */
  function Rank(c: Context, output: Uri, visited: set<Uri>, st: State, k: nat, best: Best): Ranking
    requires output !in visited && k <= |c.plugins|
    decreases c.Outputs() - visited, 1, |c.plugins| - k
  {
    if k == |c.plugins| then Ranking(best, false, st)
    else
      var p := c.plugins[k];
      if p.output != output || Ignored(p, visited + {output}, st.deadEnds) then
        Rank(c, output, visited, st, k + 1, best)
      else
        var price := Price(c, p, visited, st, 0, p.cost);
        if price.aborted then Ranking(NoPlugin, true, price.st)
        else Rank(c, output, visited, price.st, k + 1, Better(best, p, price.cost))
  }

  function Better(best: Best, p: Plugin, cost: Option<int>): Best {
    if cost.Some? && (best.NoPlugin? || cost.value < best.cost) then Cheapest(p, cost.value) else best
  }

  /** The loop over the inputs of a plugin, from input i on; `cost` is the cost so far. */
  function Price(c: Context, p: Plugin, visited: set<Uri>, st: State, i: nat, cost: int): Pricing
    requires p in c.plugins && p.output !in visited && i <= |p.inputs|
    requires !Ignored(p, visited + {p.output}, {})
    decreases c.Outputs() - visited, 0, |p.inputs| - i
  {
    if i == |p.inputs| then Pricing(Some(cost), false, st)
    else
      var u := p.inputs[i];
      if u in c.inputs then Price(c, p, visited, st, i + 1, cost)
      else
        var sub := if u in st.created then Outcome(Found(st.created[u]), st)
                   else
                     assert c.Outputs() - (visited + {p.output}) < c.Outputs() - visited by {
                       assert p.output in c.Outputs() - visited;
                     }
                     Create(c, u, visited + {p.output}, st);
        match sub.r
        case Aborted => Pricing(None, true, sub.st)
        case NotFound => Pricing(None, false, sub.st)
        case Found(m) =>
          if c.checked && m.cost < 0 then Pricing(None, true, sub.st)
          else Price(c, p, visited, sub.st, i + 1, cost + m.cost)
  }

  function Build(c: Context, p: Plugin, cost: int, created: map<Uri, Mapping>): Mapping {
    Mapping(Some(p), p.output, Sources(c, p, created), cost)
  }

  function Sources(c: Context, p: Plugin, created: map<Uri, Mapping>): (r: seq<Source>)
    ensures |r| == |p.inputs|
  {
    seq(|p.inputs|, i requires 0 <= i < |p.inputs| => SourceOf(c, p.inputs[i], created))
  }

  function SourceOf(c: Context, u: Uri, created: map<Uri, Mapping>): Source {
    if u !in c.inputs && u in created then FromMapping(created[u]) else FromInput(u)
  }

  /** mapping_create_base(). */
  function CreateBase(c: Context, output: Uri): Result {
    if output in c.inputs then Found(Mapping(None, output, [FromInput(output)], 0))
    else Create(c, output, {}, State(map[], {})).r
  }

  // ----- The search on the shared tables -----

  class MappingSearch {
    const c: Context
    var visited: set<Uri>
    var created: map<Uri, Mapping>
    var deadEnds: set<Uri>

    constructor (c: Context)
      ensures this.c == c && visited == {} && created == map[] && deadEnds == {}
    {
      this.c := c;
      visited, created, deadEnds := {}, map[], {};
    }

    function Tables(): State
      reads this
    {
      State(created, deadEnds)
    }

    method CreateRec(output: Uri) returns (r: Result)
      requires output !in visited
      modifies this
      ensures Outcome(r, Tables()) == Create(c, output, old(visited), old(Tables()))
      ensures !r.Aborted? ==> visited == old(visited)
      decreases c.Outputs() - visited, 2, 0
    {
      if c.checked && (output in c.inputs || output in deadEnds) { return Aborted; }
      ghost var before, all := visited, Rank(c, output, visited, Tables(), 0, NoPlugin);
      visited := visited + {output};
      var best, k := NoPlugin, 0;
      while k < |c.plugins|
        invariant 0 <= k <= |c.plugins| && visited == before + {output} && before == old(visited)
        invariant Rank(c, output, before, Tables(), k, best) == all
        decreases |c.plugins| - k
      {
        var p := c.plugins[k];
        if p.output == output && !Ignored(p, visited, deadEnds) {
          var price, aborted := PriceOf(p, before);
          if aborted { return Aborted; }
          best := Better(best, p, price);
        }
        k := k + 1;
      }
      visited := visited - {output};
      if best.NoPlugin? {
        deadEnds := deadEnds + {output};
        return NotFound;
      }
      var m := Build(c, best.p, best.cost, created);
      created := created[output := m];
      return Found(m);
    }

    /** The inner loop: searches the inputs of a candidate and adds up its cost. */
    method PriceOf(p: Plugin, ghost before: set<Uri>) returns (price: Option<int>, aborted: bool)
      requires p in c.plugins && p.output !in before && visited == before + {p.output}
      requires !Ignored(p, visited, {})
      modifies this
      ensures Pricing(price, aborted, Tables()) == Price(c, p, before, old(Tables()), 0, p.cost)
      ensures !aborted ==> visited == old(visited)
      decreases c.Outputs() - before, 0, 0
    {
      ghost var all := Price(c, p, before, Tables(), 0, p.cost);
      var cost, i := p.cost, 0;
      while i < |p.inputs|
        invariant 0 <= i <= |p.inputs| && visited == before + {p.output}
        invariant Price(c, p, before, Tables(), i, cost) == all
        decreases |p.inputs| - i
      {
        var u := p.inputs[i];
        if u !in c.inputs {
          var m: Mapping;
          if u in created {
            m := created[u];
          } else {
            assert p.output in c.Outputs() - before;
            var r := CreateRec(u);
            if r.Aborted? { return None, true; }
            if r.NotFound? { return None, false; }
            m := r.m;
          }
          if c.checked && m.cost < 0 { return None, true; }
          cost := cost + m.cost;
        }
        i := i + 1;
      }
      return Some(cost), false;
    }
  }

  // ----- Soundness -----

  function SubCost(s: Source): int {
    if s.FromMapping? then s.m.cost else 0
  }

  function SubCosts(sources: seq<Source>): int {
    if sources == [] then 0 else SubCosts(sources[..|sources| - 1]) + SubCost(sources[|sources| - 1])
  }

  /** The source supplies the URI: an input that is available, or a mapping to it. */
  predicate Supplies(c: Context, s: Source, u: Uri) {
    match s
    case FromInput(v) => v == u && u in c.inputs
    case FromMapping(m) => m.output == u && u !in c.inputs
  }

  /** The topmost step of a mapping applies a registered plugin to sources for its inputs, and its cost is
      the cost of the plugin plus those of the sub-mappings. */
  predicate AppliesPlugin(c: Context, m: Mapping) {
    && m.api.Some? && m.api.value in c.plugins && m.api.value.output == m.output && m.output !in c.inputs
    && |m.sources| == |m.api.value.inputs|
    && (forall i | 0 <= i < |m.sources| :: Supplies(c, m.sources[i], m.api.value.inputs[i]))
    && m.cost == m.api.value.cost + SubCosts(m.sources)
  }

  /** Every step of the mapping applies a plugin. */
  predicate IsDerivation(c: Context, m: Mapping) {
    AppliesPlugin(c, m) && forall s | s in m.sources && s.FromMapping? :: IsDerivation(c, s.m)
  }

  /** The mapping and all its sub-mappings. */
  function Parts(m: Mapping): set<Mapping> {
    {m} + set s, x | s in m.sources && s.FromMapping? && x in Parts(s.m) :: x
  }

  /** Every entry of the table maps to its key and is built from entries of the table. */
  ghost predicate Closed(c: Context, created: map<Uri, Mapping>) {
    forall u | u in created ::
      && created[u].output == u && AppliesPlugin(c, created[u])
      && forall s | s in created[u].sources && s.FromMapping? :: s.m.output in created && created[s.m.output] == s.m
  }

  ghost predicate Extends(later: map<Uri, Mapping>, earlier: map<Uri, Mapping>) {
    forall u | u in earlier :: u in later && later[u] == earlier[u]
  }

  /** What each part of the search keeps: the table stays closed, earlier entries stay as they are, and new
      ones are not for URIs that are being visited. */
  ghost predicate Keeps(c: Context, visited: set<Uri>, before: State, after: State) {
    && Closed(c, after.created) && Extends(after.created, before.created)
    && after.created.Keys !! visited && before.deadEnds <= after.deadEnds
  }

  /** The cost of a plugin with the entries of a table. */
  function PriceIn(c: Context, p: Plugin, created: map<Uri, Mapping>, i: nat): int
    requires i <= |p.inputs|
  {
    SubCosts(Sources(c, p, created)[..i])
  }

  ghost predicate Available(c: Context, p: Plugin, created: map<Uri, Mapping>, i: nat)
    requires i <= |p.inputs|
  {
    forall j | 0 <= j < i :: p.inputs[j] in c.inputs || p.inputs[j] in created
  }

  lemma SourcesKept(c: Context, p: Plugin, a: map<Uri, Mapping>, b: map<Uri, Mapping>, i: nat)
    requires i <= |p.inputs| && Extends(b, a) && Available(c, p, a, i)
    ensures Available(c, p, b, i) && PriceIn(c, p, a, i) == PriceIn(c, p, b, i)
  {
    assert Sources(c, p, a)[..i] == Sources(c, p, b)[..i];
  }

  lemma NextSource(c: Context, p: Plugin, created: map<Uri, Mapping>, i: nat)
    requires i < |p.inputs|
    ensures PriceIn(c, p, created, i + 1) == PriceIn(c, p, created, i) + SubCost(SourceOf(c, p.inputs[i], created))
  {
    var all := Sources(c, p, created);
    assert all[..i + 1][..i] == all[..i];
  }

  lemma {:induction false} CreateIsSound(c: Context, output: Uri, visited: set<Uri>, st: State)
    requires output !in visited && output !in st.created && output !in c.inputs
    requires Closed(c, st.created) && st.created.Keys !! visited
    ensures var o := Create(c, output, visited, st);
      && (!o.r.Aborted? ==> Keeps(c, visited, st, o.st))
      && (o.r.Found? ==> output in o.st.created && o.st.created[output] == o.r.m && o.r.m.output == output)
    decreases c.Outputs() - visited, 2, 0
  {
    if !(c.checked && (output in c.inputs || output in st.deadEnds)) {
      var rank := Rank(c, output, visited, st, 0, NoPlugin);
      RankIsSound(c, output, visited, st, 0, NoPlugin);
      if !rank.aborted && rank.best.Cheapest? {
        AddIsSound(c, output, rank.best.p, rank.best.cost, rank.st.created);
      }
    }
  }

  /** Adding the mapping that was chosen keeps the table closed. */
  lemma AddIsSound(c: Context, output: Uri, p: Plugin, cost: int, created: map<Uri, Mapping>)
    requires Closed(c, created) && output !in created && output !in c.inputs
    requires p in c.plugins && p.output == output && Available(c, p, created, |p.inputs|)
    requires cost == p.cost + PriceIn(c, p, created, |p.inputs|)
    ensures Closed(c, created[output := Build(c, p, cost, created)])
  {
    var m := Build(c, p, cost, created);
    assert Sources(c, p, created)[..|p.inputs|] == m.sources;
    assert AppliesPlugin(c, m);
    assert forall s | s in m.sources && s.FromMapping? :: s.m.output in created && created[s.m.output] == s.m;
  }

  /** The candidate is registered, available and priced. */
  ghost predicate Priced(c: Context, output: Uri, best: Best, created: map<Uri, Mapping>) {
    best.Cheapest? ==>
      && best.p in c.plugins && best.p.output == output && Available(c, best.p, created, |best.p.inputs|)
      && best.cost == best.p.cost + PriceIn(c, best.p, created, |best.p.inputs|)
  }

  lemma {:induction false} RankIsSound(c: Context, output: Uri, visited: set<Uri>, st: State, k: nat, best: Best)
    requires output !in visited && output !in c.inputs && k <= |c.plugins|
    requires Closed(c, st.created) && st.created.Keys !! (visited + {output}) && Priced(c, output, best, st.created)
    ensures var rank := Rank(c, output, visited, st, k, best);
      !rank.aborted ==> Keeps(c, visited + {output}, st, rank.st) && Priced(c, output, rank.best, rank.st.created)
    decreases c.Outputs() - visited, 1, |c.plugins| - k
  {
    if k < |c.plugins| {
      var p := c.plugins[k];
      if p.output != output || Ignored(p, visited + {output}, st.deadEnds) {
        RankIsSound(c, output, visited, st, k + 1, best);
      } else {
        var price := Price(c, p, visited, st, 0, p.cost);
        PriceIsSound(c, p, visited, st, 0, p.cost);
        if !price.aborted {
          if best.Cheapest? { SourcesKept(c, best.p, st.created, price.st.created, |best.p.inputs|); }
          RankIsSound(c, output, visited, price.st, k + 1, Better(best, p, price.cost));
        }
      }
    }
  }

  /** What a search that was not aborted leaves, and that the plugin is available at its price. */
  ghost predicate SoundPrice(c: Context, p: Plugin, visited: set<Uri>, st: State, price: Pricing) {
    !price.aborted ==>
      && Keeps(c, visited + {p.output}, st, price.st)
      && (price.cost.Some? ==> Priced(c, p.output, Cheapest(p, price.cost.value), price.st.created))
  }

  lemma {:induction false} PriceIsSound(c: Context, p: Plugin, visited: set<Uri>, st: State, i: nat, cost: int)
    requires p in c.plugins && p.output !in visited && i <= |p.inputs| && !Ignored(p, visited + {p.output}, {})
    requires Closed(c, st.created) && st.created.Keys !! (visited + {p.output})
    requires Available(c, p, st.created, i) && cost == p.cost + PriceIn(c, p, st.created, i)
    ensures SoundPrice(c, p, visited, st, Price(c, p, visited, st, i, cost))
    decreases c.Outputs() - visited, 0, |p.inputs| - i, 1
  {
    if i < |p.inputs| {
      var u := p.inputs[i];
      if u in c.inputs {
        NextSource(c, p, st.created, i);
        PriceIsSound(c, p, visited, st, i + 1, cost);
      } else if u in st.created {
        NextSource(c, p, st.created, i);
        if !(c.checked && st.created[u].cost < 0) {
          PriceIsSound(c, p, visited, st, i + 1, cost + st.created[u].cost);
        }
      } else {
        SearchedPriceIsSound(c, p, visited, st, i, cost);
      }
    }
  }

  /** The same if input i has to be searched. */
  lemma {:induction false} SearchedPriceIsSound(c: Context, p: Plugin, visited: set<Uri>, st: State, i: nat, cost: int)
    requires p in c.plugins && p.output !in visited && i < |p.inputs| && !Ignored(p, visited + {p.output}, {})
    requires Closed(c, st.created) && st.created.Keys !! (visited + {p.output})
    requires Available(c, p, st.created, i) && cost == p.cost + PriceIn(c, p, st.created, i)
    requires p.inputs[i] !in c.inputs && p.inputs[i] !in st.created
    ensures SoundPrice(c, p, visited, st, Price(c, p, visited, st, i, cost))
    decreases c.Outputs() - visited, 0, |p.inputs| - i, 0
  {
    assert p.output in c.Outputs() - visited;
    var sub := Create(c, p.inputs[i], visited + {p.output}, st);
    CreateIsSound(c, p.inputs[i], visited + {p.output}, st);
    if sub.r.Found? && !(c.checked && sub.r.m.cost < 0) {
      SourcesKept(c, p, st.created, sub.st.created, i);
      NextSource(c, p, sub.st.created, i);
      PriceIsSound(c, p, visited, sub.st, i + 1, cost + sub.r.m.cost);
    }
  }

  /** Every part of an entry of a closed table is itself an entry. */
  lemma {:induction false} PartsAreEntries(c: Context, created: map<Uri, Mapping>, m: Mapping)
    requires Closed(c, created) && m.output in created && created[m.output] == m
    ensures IsDerivation(c, m)
    ensures forall x | x in Parts(m) :: x.output in created && created[x.output] == x && AppliesPlugin(c, x)
  {
    forall s | s in m.sources && s.FromMapping?
      ensures IsDerivation(c, s.m)
      ensures forall x | x in Parts(s.m) :: x.output in created && created[x.output] == x && AppliesPlugin(c, x)
    {
      PartsAreEntries(c, created, s.m);
    }
  }

  function Height(m: Mapping): nat
    decreases m, |m.sources| + 1
  {
    1 + MaxHeight(m, |m.sources|)
  }

  /** Greatest height among the first n sources. */
  function MaxHeight(m: Mapping, n: nat): (h: nat)
    requires n <= |m.sources|
    ensures forall i | 0 <= i < n && m.sources[i].FromMapping? :: Height(m.sources[i].m) <= h
    decreases m, n
  {
    if n == 0 then 0
    else
      var rest := MaxHeight(m, n - 1);
      var last := if m.sources[n - 1].FromMapping? then Height(m.sources[n - 1].m) else 0;
      if last > rest then last else rest
  }

  lemma {:induction false} PartsAreLower(m: Mapping)
    ensures forall x | x in Parts(m) && x != m :: Height(x) < Height(m)
  {
    forall s | s in m.sources && s.FromMapping? ensures forall x | x in Parts(s.m) :: Height(x) <= Height(s.m) {
      PartsAreLower(s.m);
    }
  }

  /** A URI is produced by at most one sub-mapping, which is shared; no sub-mapping produces an input. */
  ghost predicate Shares(c: Context, m: Mapping) {
    forall x {:trigger IsOnly(m, x)} | x in Parts(m) :: IsOnly(m, x) && x.output !in c.inputs
  }

  /** No other part has the output of x. */
  ghost predicate IsOnly(m: Mapping, x: Mapping) {
    forall y | y in Parts(m) && x.output == y.output :: x == y
  }

  /** No mapping is used, directly or indirectly, to derive its own output. */
  ghost predicate Acyclic(m: Mapping) {
    forall x, y | x in Parts(m) && y in Parts(x) && y != x :: y.output != x.output
  }

  lemma {:induction false} PartsOfParts(m: Mapping, x: Mapping)
    requires x in Parts(m)
    ensures Parts(x) <= Parts(m)
  {
    if x != m {
      var s :| s in m.sources && s.FromMapping? && x in Parts(s.m);
      PartsOfParts(s.m, x);
    }
  }

  /** A mapping that the search returns is an acyclic derivation of the output from the inputs by registered
      plugins, with the costs added up, in which equal output URIs are the same sub-mapping. */
  lemma SearchIsSound(c: Context, output: Uri)
    requires output !in c.inputs && CreateBase(c, output).Found?
    ensures var m := CreateBase(c, output).m;
      m.output == output && IsDerivation(c, m) && Acyclic(m) && Shares(c, m)
  {
    CreateIsSound(c, output, {}, State(map[], {}));
    var o := Create(c, output, {}, State(map[], {}));
    var m := o.r.m;
    PartsAreEntries(c, o.st.created, m);
    forall x, y | x in Parts(m) && y in Parts(x) && y != x ensures y.output != x.output {
      PartsOfParts(m, x);
      PartsAreLower(x);
    }
  }
}
