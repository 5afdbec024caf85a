/** Why the mapping search needs orderly plugins: any other plugin makes an assertion fail once some rules are
    added that make nothing new derivable (`dlite-mapping.c`). */
module MappingAborts {
  import opened Options
  import opened Mappings
  import opened MappingSearchLimits

  // ----- The added rules -----

  /** Inputs k and j show that the plugin is not orderly: j is the first that cannot be derived, and k < j the
      first that is not given. */
  ghost predicate Disorderly(c: Context, p: Plugin, k: nat, j: nat) {
    && k < j < |p.inputs| && !Derivable(c, p.inputs[j]) && FirstOf(c, p, j)
    && p.inputs[k] !in c.inputs && forall i | 0 <= i < k :: p.inputs[i] in c.inputs
  }

  lemma NotFailsFirst(c: Context, p: Plugin) returns (k: nat, j: nat)
    requires !FailsFirst(c, p)
    ensures Disorderly(c, p, k, j)
  {
    var j0 :| 0 <= j0 < |p.inputs| && !Derivable(c, p.inputs[j0]) && FirstOf(c, p, j0)
      && !forall i | 0 <= i < j0 :: p.inputs[i] in c.inputs;
    var i :| 0 <= i < j0 && p.inputs[i] !in c.inputs;
    j, k := j0, 0;
    while p.inputs[k] in c.inputs
      invariant k <= i && forall n | 0 <= n < k :: p.inputs[n] in c.inputs
      decreases i - k
    {
      k := k + 1;
    }
  }

  /** A rule that needs nothing. */
  function Free(u: Uri): Plugin {
    Plugin("", u, [], 0)
  }

  /** The plugin comes first; then there is another way to its input k, by its input j, and one without inputs
      to each input before j. */
  function Extended(c: Context, p: Plugin, k: nat, j: nat): Context
    requires k < j < |p.inputs|
  {
    Context([p, Plugin("", p.inputs[k], [p.inputs[j]], 0)] + seq(j, i requires 0 <= i < j => Free(p.inputs[i]))
              + c.plugins,
            c.inputs, true)
  }

  lemma ExtendedRules(c: Context, p: Plugin, k: nat, j: nat)
    requires k < j < |p.inputs|
    ensures var e := Extended(c, p, k, j);
      && e.plugins[0] == p && e.plugins[1] == Plugin("", p.inputs[k], [p.inputs[j]], 0)
      && (forall i | 0 <= i < j :: Free(p.inputs[i]) in e.plugins)
      && (forall q | q in c.plugins :: q in e.plugins)
      && forall q | q in e.plugins :: q in c.plugins || q == p || (exists i :: 0 <= i < j && q.output == p.inputs[i])
  {
    var e, free := Extended(c, p, k, j), seq(j, i requires 0 <= i < j => Free(p.inputs[i]));
    forall i | 0 <= i < j ensures Free(p.inputs[i]) in e.plugins { assert e.plugins[i + 2] == free[i]; }
    forall q | q in c.plugins ensures q in e.plugins {
      var i :| 0 <= i < |c.plugins| && c.plugins[i] == q;
      assert e.plugins[i + 2 + j] == q;
    }
  }

  // ----- Nothing new can be derived -----

  ghost function Witness(c: Context, u: Uri): (m: Mapping)
    requires Derivable(c, u) && u !in c.inputs
    ensures IsDerivation(c, m) && m.output == u
  {
    var m :| IsDerivation(c, m) && m.output == u;
    m
  }

  /** A plugin whose inputs can be derived derives its output. */
  lemma DerivableBy(c: Context, p: Plugin)
    requires p in c.plugins && Realisable(c, p)
    ensures Derivable(c, p.output)
  {
    if p.output !in c.inputs {
      var sources := seq(|p.inputs|, i requires 0 <= i < |p.inputs| =>
        if p.inputs[i] in c.inputs then FromInput(p.inputs[i]) else FromMapping(Witness(c, p.inputs[i])));
      var m := Mapping(Some(p), p.output, sources, p.cost + SubCosts(sources));
      forall i | 0 <= i < |sources| ensures Supplies(c, sources[i], p.inputs[i]) {}
      assert AppliesPlugin(c, m);
      assert IsDerivation(c, m);
    }
  }

  lemma {:induction false} StillDerivable(c: Context, p: Plugin, k: nat, j: nat, m: Mapping)
    requires Disorderly(c, p, k, j) && p in c.plugins && IsDerivation(Extended(c, p, k, j), m)
    ensures Derivable(c, m.output)
    decreases m
  {
    var e, q := Extended(c, p, k, j), m.api.value;
    ExtendedRules(c, p, k, j);
    if q in c.plugins {
      forall u | u in q.inputs ensures Derivable(c, u) {
        var i :| 0 <= i < |q.inputs| && q.inputs[i] == u;
        assert Supplies(e, m.sources[i], u);
        if m.sources[i].FromMapping? { StillDerivable(c, p, k, j, m.sources[i].m); }
      }
      DerivableBy(c, q);
    } else {
      var i :| 0 <= i < j && q.output == p.inputs[i];
    }
  }

  /** The added rules make nothing derivable that was not. */
  lemma ExtensionIsConservative(c: Context, p: Plugin, k: nat, j: nat, u: Uri)
    requires Disorderly(c, p, k, j) && p in c.plugins
    ensures Derivable(Extended(c, p, k, j), u) ==> Derivable(c, u)
  {
    var e := Extended(c, p, k, j);
    if Derivable(e, u) && u !in c.inputs {
      var m :| IsDerivation(e, m) && m.output == u;
      StillDerivable(c, p, k, j, m);
    }
  }

  // ----- The search -----

  lemma {:induction false} CreateKeepsDeadEnds(c: Context, output: Uri, visited: set<Uri>, st: State)
    requires output !in visited
    ensures st.deadEnds <= Create(c, output, visited, st).st.deadEnds
    decreases c.Outputs() - visited, 2, 0
  {
    RankKeepsDeadEnds(c, output, visited, st, 0, NoPlugin);
  }

  lemma {:induction false} RankKeepsDeadEnds(c: Context, output: Uri, visited: set<Uri>, st: State, k: nat, best: Best)
    requires output !in visited && k <= |c.plugins|
    ensures st.deadEnds <= Rank(c, output, visited, st, k, best).st.deadEnds
    decreases c.Outputs() - visited, 1, |c.plugins| - k
  {
    if k < |c.plugins| {
      var p := c.plugins[k];
      if p.output != output || Ignored(p, visited + {output}, st.deadEnds) {
        RankKeepsDeadEnds(c, output, visited, st, k + 1, best);
      } else {
        PriceKeepsDeadEnds(c, p, visited, st, 0, p.cost);
        var price := Price(c, p, visited, st, 0, p.cost);
        RankKeepsDeadEnds(c, output, visited, price.st, k + 1, Better(best, p, price.cost));
      }
    }
  }

  lemma {:induction false} PriceKeepsDeadEnds(c: Context, p: Plugin, visited: set<Uri>, st: State, i: nat, cost: int)
    requires p in c.plugins && p.output !in visited && i <= |p.inputs| && !Ignored(p, visited + {p.output}, {})
    ensures st.deadEnds <= Price(c, p, visited, st, i, cost).st.deadEnds
    decreases c.Outputs() - visited, 0, |p.inputs| - i
  {
    if i < |p.inputs| {
      var u := p.inputs[i];
      if u in c.inputs {
        PriceKeepsDeadEnds(c, p, visited, st, i + 1, cost);
      } else if u in st.created {
        PriceKeepsDeadEnds(c, p, visited, st, i + 1, cost + st.created[u].cost);
      } else {
        assert p.output in c.Outputs() - visited;
        CreateKeepsDeadEnds(c, u, visited + {p.output}, st);
        var sub := Create(c, u, visited + {p.output}, st);
        if sub.r.Found? { PriceKeepsDeadEnds(c, p, visited, sub.st, i + 1, cost + sub.r.m.cost); }
      }
    }
  }

  /** With a rule that needs nothing among the rest, something is found unless an assertion fails. */
  lemma {:induction false} FreeIsFound(c: Context, output: Uri, visited: set<Uri>, st: State, k: nat, best: Best)
    requires output !in visited && k <= |c.plugins|
    requires best.Cheapest? || exists n :: k <= n < |c.plugins| && c.plugins[n] == Free(output)
    ensures var r := Rank(c, output, visited, st, k, best); r.aborted || r.best.Cheapest?
    decreases |c.plugins| - k
  {
    if k < |c.plugins| {
      var p := c.plugins[k];
      if p.output != output || Ignored(p, visited + {output}, st.deadEnds) {
        FreeIsFound(c, output, visited, st, k + 1, best);
      } else {
        var price := Price(c, p, visited, st, 0, p.cost);
        if !price.aborted { FreeIsFound(c, output, visited, price.st, k + 1, Better(best, p, price.cost)); }
      }
    }
  }

  /** What cannot be derived is not found. */
  lemma NotDerivableIsNotFound(c: Context, u: Uri, visited: set<Uri>, st: State)
    requires !Derivable(c, u) && u !in visited && u !in st.created && Closed(c, st.created)
      && st.created.Keys !! visited
    ensures !Create(c, u, visited, st).r.Found?
  {
    CreateIsSound(c, u, visited, st);
    var o := Create(c, u, visited, st);
    if o.r.Found? {
      EntryIsDerivable(c, o.st.created, u);
      assert false;
    }
  }

  /** The rules with which the search for the output of the plugin is stopped. */
  ghost predicate Trap(c: Context, p: Plugin, k: nat, j: nat) {
    && c.checked && |c.plugins| > 1 && c.plugins[0] == p && k < j < |p.inputs|
    && c.plugins[1] == Plugin("", p.inputs[k], [p.inputs[j]], 0)
    && (forall i {:trigger IsSupplied(c, p, i)} | 0 <= i < j :: IsSupplied(c, p, i))
    && !Derivable(c, p.inputs[j]) && p.inputs[k] !in c.inputs && (forall i | 0 <= i < k :: p.inputs[i] in c.inputs)
    && p.output !in c.inputs && p.output !in p.inputs
  }

  /** There is a rule that gives input i without conditions, and it can be derived. */
  ghost predicate IsSupplied(c: Context, p: Plugin, i: nat)
    requires i < |p.inputs|
  {
    Free(p.inputs[i]) in c.plugins && Derivable(c, p.inputs[i])
  }

  lemma FreeRule(c: Context, p: Plugin, k: nat, j: nat, i: nat, visited: set<Uri>, st: State)
    requires Trap(c, p, k, j) && i < j && p.inputs[i] !in visited
    ensures !Create(c, p.inputs[i], visited, st).r.NotFound?
  {
    assert IsSupplied(c, p, i);
    var n :| 0 <= n < |c.plugins| && c.plugins[n] == Free(p.inputs[i]);
    FreeIsFound(c, p.inputs[i], visited, st, 0, NoPlugin);
  }

  const START := State(map[], {})

  /** While input k is searched, input j becomes a dead end. */
  lemma FirstMakesDead(c: Context, p: Plugin, k: nat, j: nat)
    requires Trap(c, p, k, j)
    ensures var o := Create(c, p.inputs[k], {} + {p.output}, START);
      o.r.Aborted? || p.inputs[j] in o.st.deadEnds
  {
    var a, b, t := p.inputs[k], p.inputs[j], p.output;
    assert a in p.inputs && b in p.inputs && IsSupplied(c, p, k);
    var r := c.plugins[1];
    var visited := {} + {t};
    assert r in c.plugins && !Ignored(r, visited + {a}, {});
    NotDerivableIsNotFound(c, b, visited + {a}, START);
    var sub := Create(c, b, visited + {a}, START);
    assert Price(c, r, visited, START, 0, 0) == Pricing(None, sub.r.Aborted?, sub.st);
    assert Rank(c, a, visited, START, 0, NoPlugin) == Rank(c, a, visited, START, 1, NoPlugin);
    if !sub.r.Aborted? {
      assert b in sub.st.deadEnds;
      assert Rank(c, a, visited, START, 1, NoPlugin) == Rank(c, a, visited, sub.st, 2, NoPlugin);
      RankKeepsDeadEnds(c, a, visited, sub.st, 2, NoPlugin);
    }
  }

  /** Input j is a dead end, and the table is sound. */
  ghost predicate DeadInput(c: Context, p: Plugin, j: nat, st: State)
    requires j < |p.inputs|
  {
    p.inputs[j] in st.deadEnds && Closed(c, st.created) && st.created.Keys !! {p.output}
  }

  /** Once input j is a dead end, the search ends there. */
  lemma {:induction false} DeadInputAborts(c: Context, p: Plugin, k: nat, j: nat, st: State, i: nat, cost: int)
    requires Trap(c, p, k, j) && i <= j && p in c.plugins && !Ignored(p, {} + {p.output}, {}) && DeadInput(c, p, j, st)
    ensures Price(c, p, {}, st, i, cost).aborted
    decreases j - i, 1
  {
    if i == j {
      LastInput(c, p, k, j, st);
      PriceStep(c, p, {}, st, j, cost);
    } else if p.inputs[i] in c.inputs {
      DeadInputAborts(c, p, k, j, st, i + 1, cost);
    } else {
      InputBefore(c, p, k, j, st, i);
      ThenAborts(c, p, k, j, st, i, cost);
    }
  }

  lemma LastInput(c: Context, p: Plugin, k: nat, j: nat, st: State)
    requires Trap(c, p, k, j) && !Ignored(p, {} + {p.output}, {}) && DeadInput(c, p, j, st)
    ensures p.inputs[j] !in c.inputs && SourceOutcome(c, p, {}, st, j).r.Aborted?
  {
    if p.inputs[j] in st.created { EntryIsDerivable(c, st.created, p.inputs[j]); }
  }

  lemma InputBefore(c: Context, p: Plugin, k: nat, j: nat, st: State, i: nat)
    requires Trap(c, p, k, j) && i < j && p.inputs[i] !in c.inputs && !Ignored(p, {} + {p.output}, {})
      && DeadInput(c, p, j, st)
    ensures var sub := SourceOutcome(c, p, {}, st, i); !sub.r.NotFound? && (sub.r.Found? ==> DeadInput(c, p, j, sub.st))
  {
    var u, visited := p.inputs[i], {} + {p.output};
    assert u in p.inputs;
    if u !in st.created {
      FreeRule(c, p, k, j, i, visited, st);
      CreateIsSound(c, u, visited, st);
      CreateKeepsDeadEnds(c, u, visited, st);
    }
  }

  lemma {:induction false} GivenInputsAreSkipped(c: Context, p: Plugin, st: State, i: nat, k: nat, cost: int)
    requires p in c.plugins && i <= k <= |p.inputs| && !Ignored(p, {} + {p.output}, {})
    requires forall n | i <= n < k :: p.inputs[n] in c.inputs
    ensures Price(c, p, {}, st, i, cost) == Price(c, p, {}, st, k, cost)
    decreases k - i
  {
    if i < k { GivenInputsAreSkipped(c, p, st, i + 1, k, cost); }
  }

  lemma TrapAborts(c: Context, p: Plugin, k: nat, j: nat)
    requires Trap(c, p, k, j)
    ensures CreateBase(c, p.output).Aborted?
  {
    assert p in c.plugins && p.inputs[k] in p.inputs;
    PriceAborts(c, p, k, j);
    assert Rank(c, p.output, {}, START, 0, NoPlugin).aborted;
  }

  lemma PriceAborts(c: Context, p: Plugin, k: nat, j: nat)
    requires Trap(c, p, k, j) && p in c.plugins && !Ignored(p, {} + {p.output}, {})
    ensures Price(c, p, {}, START, 0, p.cost).aborted
  {
    GivenInputsAreSkipped(c, p, START, 0, k, p.cost);
    FirstInput(c, p, k, j);
    ThenAborts(c, p, k, j, START, k, p.cost);
  }

  /** The search ends at input j if that is a dead end once input i is there. */
  lemma ThenAborts(c: Context, p: Plugin, k: nat, j: nat, st: State, i: nat, cost: int)
    requires Trap(c, p, k, j) && i < j && p.inputs[i] !in c.inputs && p in c.plugins && !Ignored(p, {} + {p.output}, {})
    requires var sub := SourceOutcome(c, p, {}, st, i);
      !sub.r.NotFound? && (sub.r.Found? ==> DeadInput(c, p, j, sub.st))
    ensures Price(c, p, {}, st, i, cost).aborted
    decreases j - i, 0
  {
    PriceStep(c, p, {}, st, i, cost);
    var sub := SourceOutcome(c, p, {}, st, i);
    if sub.r.Found? { DeadInputAborts(c, p, k, j, sub.st, i + 1, cost + sub.r.m.cost); }
  }

  lemma FirstInput(c: Context, p: Plugin, k: nat, j: nat)
    requires Trap(c, p, k, j) && !Ignored(p, {} + {p.output}, {})
    ensures var sub := SourceOutcome(c, p, {}, START, k);
      !sub.r.NotFound? && (sub.r.Found? ==> DeadInput(c, p, j, sub.st))
  {
    assert p.inputs[k] in p.inputs;
    FirstMakesDead(c, p, k, j);
    FreeRule(c, p, k, j, k, {} + {p.output}, START);
    CreateIsSound(c, p.inputs[k], {} + {p.output}, START);
  }

  /** A plugin that is not orderly and that could be used makes an assertion fail in some extension of the
      rules, which only adds ways to derive what can be derived anyhow. */
  lemma DisorderlyPluginAborts(c: Context, p: Plugin) returns (e: Context)
    requires p in c.plugins && !FailsFirst(c, p) && p.output !in c.inputs && p.output !in p.inputs
    ensures e.inputs == c.inputs && e.checked && (forall q | q in c.plugins :: q in e.plugins)
    ensures forall u :: Derivable(e, u) <==> Derivable(c, u)
    ensures CreateBase(e, p.output).Aborted?
  {
    var k, j := NotFailsFirst(c, p);
    e := Extended(c, p, k, j);
    ExtendedRules(c, p, k, j);
    forall u ensures Derivable(e, u) <==> Derivable(c, u) {
      ExtensionIsConservative(c, p, k, j, u);
      if Derivable(c, u) && u !in c.inputs {
        var m :| IsDerivation(c, m) && m.output == u;
        MoreRules(c, e, m);
      }
    }
    TrapAborts(e, p, k, j);
  }

  lemma {:induction false} MoreRules(c: Context, e: Context, m: Mapping)
    requires IsDerivation(c, m) && e.inputs == c.inputs && forall q | q in c.plugins :: q in e.plugins
    ensures IsDerivation(e, m)
    decreases m
  {
    forall s | s in m.sources && s.FromMapping? ensures IsDerivation(e, s.m) { MoreRules(c, e, s.m); }
    forall i | 0 <= i < |m.sources| ensures Supplies(e, m.sources[i], m.api.value.inputs[i]) {
      assert Supplies(c, m.sources[i], m.api.value.inputs[i]);
    }
  }
}
