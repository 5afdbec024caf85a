/** Rule sets on which the mapping search stops at an assertion, or misses a mapping. */
module MappingExamples {
  import opened Options
  import opened Mappings
  import opened MappingSearchLimits

  function Rule(output: Uri, inputs: seq<Uri>): Plugin {
    Plugin("rule", output, inputs, 0)
  }

  lemma SkipsOtherOutputs(c: Context, output: Uri, visited: set<Uri>, st: State, k: nat, to: nat, best: Best)
    requires output !in visited && k <= to <= |c.plugins| && forall j | k <= j < to :: c.plugins[j].output != output
    ensures Rank(c, output, visited, st, k, best) == Rank(c, output, visited, st, to, best)
    decreases |c.plugins| - k
  {
    if k < to { SkipsOtherOutputs(c, output, visited, st, k + 1, to, best); }
  }

  /** A URI that no plugin produces becomes a dead end. */
  lemma NoProducer(c: Context, output: Uri, visited: set<Uri>, st: State)
    requires output !in visited && output !in c.inputs && forall p | p in c.plugins :: p.output != output
    ensures Create(c, output, visited, st)
         == if c.checked && output in st.deadEnds then Outcome(Aborted, st)
            else Outcome(NotFound, st.(deadEnds := st.deadEnds + {output}))
  {
    SkipsOtherOutputs(c, output, visited, st, 0, |c.plugins|, NoPlugin);
  }

  /** t from a and b; a from b; a from i; t from a. */
  function RulesWithDeadEnd(t: Uri, a: Uri, b: Uri, i: Uri): seq<Plugin> {
    [Rule(t, [a, b]), Rule(a, [b]), Rule(a, [i]), Rule(t, [a])]
  }

  ghost predicate FourDifferent(t: Uri, a: Uri, b: Uri, i: Uri) {
    t != a && t != b && t != i && a != b && a != i && b != i
  }

  /** While the search looks for a, it finds that b is a dead end; the filter for the rule "t from a and b"
      has already passed b. */
  lemma SearchForA(c: Context, t: Uri, a: Uri, b: Uri, i: Uri)
    requires FourDifferent(t, a, b, i) && c.plugins == RulesWithDeadEnd(t, a, b, i) && c.inputs == {i}
    ensures var o := Create(c, a, {t}, State(map[], {}));
      o.r.Found? && o.r.m.cost == 0 && o.st.created == map[a := o.r.m] && o.st.deadEnds == {b}
  {
    var st := State(map[], {});
    var dead := State(map[], {b});
    assert Rank(c, a, {t}, st, 0, NoPlugin) == Rank(c, a, {t}, st, 1, NoPlugin);
    assert !Ignored(c.plugins[1], {t} + {a}, {});
    NoProducer(c, b, {t} + {a}, st);
    assert Price(c, c.plugins[1], {t}, st, 0, 0) == Pricing(None, false, dead);
    assert Rank(c, a, {t}, st, 1, NoPlugin) == Rank(c, a, {t}, dead, 2, NoPlugin);
    assert !Ignored(c.plugins[2], {t} + {a}, {b});
    assert Price(c, c.plugins[2], {t}, dead, 0, 0) == Price(c, c.plugins[2], {t}, dead, 1, 0)
      == Pricing(Some(0), false, dead);
    var best := Cheapest(c.plugins[2], 0);
    assert Rank(c, a, {t}, dead, 2, NoPlugin) == Rank(c, a, {t}, dead, 3, best) == Rank(c, a, {t}, dead, 4, best);
  }

  /** The assertion that the requested URI is not a known dead end stops the search for t, although t can
      be derived and the rules have no cycles; without the assertion the mapping is found. */
  lemma DeadEndAssertionExample(t: Uri, a: Uri, b: Uri, i: Uri)
    requires FourDifferent(t, a, b, i)
    ensures CreateBase(Context(RulesWithDeadEnd(t, a, b, i), {i}, true), t).Aborted?
    ensures CreateBase(Context(RulesWithDeadEnd(t, a, b, i), {i}, false), t).Found?
  {
    var st := State(map[], {});
    var c := Context(RulesWithDeadEnd(t, a, b, i), {i}, true);
    SearchForA(c, t, a, b, i);
    SecondInput(c, t, a, b, i);
    assert Rank(c, t, {}, st, 0, NoPlugin).aborted;
    assert Create(c, t, {}, st).r.Aborted?;
    var u := c.(checked := false);
    SearchForA(u, t, a, b, i);
    SecondInput(u, t, a, b, i);
    assert {} + {t} == {t};
    var after := Create(u, a, {t}, st).st;
    assert Rank(u, t, {}, st, 0, NoPlugin) == Rank(u, t, {}, after, 1, NoPlugin);
    SkipsOtherOutputs(u, t, {}, after, 1, 3, NoPlugin);
    assert !Ignored(u.plugins[3], {} + {t}, after.deadEnds);
    assert Price(u, u.plugins[3], {}, after, 0, 0) == Price(u, u.plugins[3], {}, after, 1, 0)
        == Pricing(Some(0), false, after);
    assert Rank(u, t, {}, after, 3, NoPlugin) == Rank(u, t, {}, after, 4, Cheapest(u.plugins[3], 0));
  }

  lemma SecondInput(c: Context, t: Uri, a: Uri, b: Uri, i: Uri)
    requires FourDifferent(t, a, b, i) && c.plugins == RulesWithDeadEnd(t, a, b, i) && c.inputs == {i}
    ensures var price := Price(c, c.plugins[0], {}, State(map[], {}), 0, 0);
      && price.st == Create(c, a, {} + {t}, State(map[], {})).st
      && price.aborted == c.checked && price.cost.None?
    ensures !Ignored(c.plugins[0], {} + {t}, {})
  {
    assert {} + {t} == {t};
    SearchForA(c, t, a, b, i);
    var after := Create(c, a, {t}, State(map[], {})).st;
    assert Price(c, c.plugins[0], {}, State(map[], {}), 0, 0) == Price(c, c.plugins[0], {}, after, 1, 0);
    NoProducer(c, b, {t}, after);
    assert {b} + {b} == {b};
    assert after.(deadEnds := {b} + {b}) == after;
  }

  /** w from y and v; y from x; y from i; x from y; v from x; and perhaps more rules for w. */
  function CyclicRules(w: Uri, y: Uri, x: Uri, v: Uri, i: Uri, more: seq<Plugin>): seq<Plugin> {
    [Rule(w, [y, v]), Rule(y, [x]), Rule(y, [i]), Rule(x, [y]), Rule(v, [x])] + more
  }

  ghost predicate IsCyclic(c: Context, w: Uri, y: Uri, x: Uri, v: Uri, i: Uri, more: seq<Plugin>) {
    && AllDifferent(w, y, x, v, i) && c.plugins == CyclicRules(w, y, x, v, i, more) && c.inputs == {i}
    && forall k | 5 <= k < |c.plugins| :: c.plugins[k].output == w
  }

  ghost predicate AllDifferent(w: Uri, y: Uri, x: Uri, v: Uri, i: Uri) {
    w != y && w != x && w != v && w != i && y != x && y != v && y != i && x != v && x != i && v != i
  }

  /** While y is being searched, x is a dead end, because it needs y. */
  lemma SearchForX(c: Context, w: Uri, y: Uri, x: Uri, v: Uri, i: Uri, more: seq<Plugin>)
    requires IsCyclic(c, w, y, x, v, i, more)
    ensures Create(c, x, {w} + {y}, State(map[], {})) == Outcome(NotFound, State(map[], {x}))
  {
    var st := State(map[], {});
    SkipsOtherOutputs(c, x, {w} + {y}, st, 0, 3, NoPlugin);
    assert c.plugins[3].inputs[0] in {w} + {y} + {x};
    assert Ignored(c.plugins[3], {w} + {y} + {x}, {});
    SkipsOtherOutputs(c, x, {w} + {y}, st, 4, |c.plugins|, NoPlugin);
    assert {} + {x} == {x};
  }

  lemma SearchForY(c: Context, w: Uri, y: Uri, x: Uri, v: Uri, i: Uri, more: seq<Plugin>)
    requires IsCyclic(c, w, y, x, v, i, more)
    ensures var o := Create(c, y, {w}, State(map[], {}));
      o.r.Found? && o.r.m.cost == 0 && o.st.created == map[y := o.r.m] && o.st.deadEnds == {x}
  {
    var st, dead := State(map[], {}), State(map[], {x});
    SkipsOtherOutputs(c, y, {w}, st, 0, 1, NoPlugin);
    assert !Ignored(c.plugins[1], {w} + {y}, {});
    SearchForX(c, w, y, x, v, i, more);
    assert Price(c, c.plugins[1], {w}, st, 0, 0) == Pricing(None, false, dead);
    assert Rank(c, y, {w}, st, 1, NoPlugin) == Rank(c, y, {w}, dead, 2, NoPlugin);
    assert !Ignored(c.plugins[2], {w} + {y}, {x});
    assert Price(c, c.plugins[2], {w}, dead, 0, 0) == Price(c, c.plugins[2], {w}, dead, 1, 0)
      == Pricing(Some(0), false, dead);
    var best := Cheapest(c.plugins[2], 0);
    assert Rank(c, y, {w}, dead, 2, NoPlugin) == Rank(c, y, {w}, dead, 3, best);
    SkipsOtherOutputs(c, y, {w}, dead, 3, |c.plugins|, best);
  }

  lemma SearchForV(c: Context, w: Uri, y: Uri, x: Uri, v: Uri, i: Uri, more: seq<Plugin>, st: State)
    requires IsCyclic(c, w, y, x, v, i, more)
    requires st.deadEnds == {x}
    ensures Create(c, v, {w}, st) == Outcome(NotFound, st.(deadEnds := {x} + {v}))
  {
    SkipsOtherOutputs(c, v, {w}, st, 0, 4, NoPlugin);
    assert c.plugins[4].inputs[0] in {x};
    assert Ignored(c.plugins[4], {w} + {v}, {x});
    SkipsOtherOutputs(c, v, {w}, st, 5, |c.plugins|, NoPlugin);
  }

  /** The first rule for w fails, because x is still a dead end when v is searched. */
  lemma FirstRuleFails(c: Context, w: Uri, y: Uri, x: Uri, v: Uri, i: Uri, more: seq<Plugin>) returns (end: State)
    requires IsCyclic(c, w, y, x, v, i, more)
    ensures Rank(c, w, {}, State(map[], {}), 0, NoPlugin) == Rank(c, w, {}, end, 1, NoPlugin)
    ensures end.deadEnds == {x, v}
  {
    var st := State(map[], {});
    assert {} + {w} == {w};
    assert !Ignored(c.plugins[0], {} + {w}, {});
    SearchForY(c, w, y, x, v, i, more);
    var after := Create(c, y, {w}, st).st;
    assert Price(c, c.plugins[0], {}, st, 0, 0) == Price(c, c.plugins[0], {}, after, 1, 0);
    SearchForV(c, w, y, x, v, i, more, after);
    end := after.(deadEnds := {x} + {v});
    assert Price(c, c.plugins[0], {}, after, 1, 0) == Pricing(None, false, end);
  }

  /** The dead ends depend on the path: no mapping to w is found, with or without the assertions, although w
      can be derived. */
  lemma IncompleteExample(w: Uri, y: Uri, x: Uri, v: Uri, i: Uri, checked: bool)
    requires AllDifferent(w, y, x, v, i)
    ensures var c := Context(CyclicRules(w, y, x, v, i, []), {i}, checked);
      CreateBase(c, w) == NotFound && Derivable(c, w)
  {
    var c := Context(CyclicRules(w, y, x, v, i, []), {i}, checked);
    var end := FirstRuleFails(c, w, y, x, v, i, []);
    SkipsOtherOutputs(c, w, {}, end, 1, 5, NoPlugin);
    var m := WIsDerivable(c, w, y, x, v, i, []);
  }

  /** The same with a dearer rule for w, which is taken although there is a derivation at no cost. */
  lemma DearerExample(w: Uri, y: Uri, x: Uri, v: Uri, i: Uri, cost: nat, checked: bool) returns (m: Mapping)
    requires AllDifferent(w, y, x, v, i)
    ensures var c := Context(CyclicRules(w, y, x, v, i, [Plugin("", w, [i], cost)]), {i}, checked);
      && CreateBase(c, w).Found? && CreateBase(c, w).m.cost == cost
      && IsDerivation(c, m) && m.output == w && m.cost == 0
  {
    var last := Plugin("", w, [i], cost);
    var c := Context(CyclicRules(w, y, x, v, i, [last]), {i}, checked);
    var end := FirstRuleFails(c, w, y, x, v, i, [last]);
    assert c.plugins[5] == last;
    SkipsOtherOutputs(c, w, {}, end, 1, 5, NoPlugin);
    LastRule(c, w, i, cost, end);
    m := WIsDerivable(c, w, y, x, v, i, [last]);
  }

  /** The last rule needs nothing but an input. */
  lemma LastRule(c: Context, w: Uri, i: Uri, cost: nat, st: State)
    requires |c.plugins| == 6 && c.plugins[5] == Plugin("", w, [i], cost) && c.inputs == {i} && w != i
    requires i !in st.deadEnds
    ensures Rank(c, w, {}, st, 5, NoPlugin) == Ranking(Cheapest(c.plugins[5], cost), false, st)
  {
    var p := c.plugins[5];
    assert !Ignored(p, {} + {w}, st.deadEnds) && !Ignored(p, {} + {w}, {});
    assert Price(c, p, {}, st, 0, cost) == Price(c, p, {}, st, 1, cost) == Pricing(Some(cost), false, st);
    assert Rank(c, w, {}, st, 6, Cheapest(p, cost)) == Ranking(Cheapest(p, cost), false, st);
  }

  function Applied(p: Plugin, sources: seq<Source>): Mapping {
    Mapping(Some(p), p.output, sources, 0)
  }

  lemma WIsDerivable(c: Context, w: Uri, y: Uri, x: Uri, v: Uri, i: Uri, more: seq<Plugin>) returns (m: Mapping)
    requires IsCyclic(c, w, y, x, v, i, more)
    ensures IsDerivation(c, m) && m.output == w && m.cost == 0
  {
    var my := Applied(c.plugins[2], [FromInput(i)]);
    var mx := Applied(c.plugins[3], [FromMapping(my)]);
    var mv := Applied(c.plugins[4], [FromMapping(mx)]);
    var mw := Applied(c.plugins[0], [FromMapping(my), FromMapping(mv)]);
    assert forall s: Source :: SubCost(s) == 0 ==> SubCosts([s]) == 0 by {
      forall s: Source ensures SubCost(s) == 0 ==> SubCosts([s]) == 0 {
        assert [s][..0] == [];
      }
    }
    assert [FromMapping(my), FromMapping(mv)][..1] == [FromMapping(my)];
    assert IsDerivation(c, my);
    assert IsDerivation(c, mx);
    assert IsDerivation(c, mv);
    assert IsDerivation(c, mw);
    m := mw;
  }
}
