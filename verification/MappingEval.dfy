/** Evaluation of a mapping (`mapping_map_rec()`): each instance that is created is remembered under its
    metadata URI and reused. */
module MappingEvaluation {
  import opened Options
  import opened Mappings

  /** The function of a plugin, which may fail, and which is also called with inputs that failed. */
  type Mapper<!I> = (Plugin, seq<Option<I>>) -> Option<I>

  function Lookup<I>(instances: map<Uri, I>, u: Uri): Option<I> {
    if u in instances then Some(instances[u]) else None
  }

  /** Direct evaluation of the derivation tree. */
  function Eval<I>(m: Mapping, inputs: map<Uri, I>, mapper: Mapper<I>): Option<I>
    decreases m, |m.sources| + 1
  {
    if m.api.None? then Lookup(inputs, m.output)
    else mapper(m.api.value, EvalSources(m, |m.sources|, inputs, mapper))
  }

  function EvalSources<I>(m: Mapping, n: nat, inputs: map<Uri, I>, mapper: Mapper<I>): seq<Option<I>>
    requires n <= |m.sources|
    decreases m, n
  {
    if n == 0 then []
    else EvalSources(m, n - 1, inputs, mapper) + [EvalSource(m.sources[n - 1], inputs, mapper)]
  }

  function EvalSource<I>(s: Source, inputs: map<Uri, I>, mapper: Mapper<I>): Option<I>
    decreases s, 0
  {
    match s
    case FromInput(u) => Lookup(inputs, u)
    case FromMapping(m) => Eval(m, inputs, mapper)
  }

  datatype Memo<I> = Memo(r: Option<I>, instances: map<Uri, I>)
  datatype Args<I> = Args(values: seq<Option<I>>, instances: map<Uri, I>)

  /** Evaluation with the table of instances: a URI that is present is not evaluated again. */
  function MapRec<I>(m: Mapping, instances: map<Uri, I>, mapper: Mapper<I>): Memo<I>
    decreases m, |m.sources| + 1
  {
    if m.output in instances || m.api.None? then Memo(Lookup(instances, m.output), instances)
    else
      var args := MapSources(m, |m.sources|, instances, mapper);
      var r := mapper(m.api.value, args.values);
      Memo(r, if r.Some? then args.instances[m.output := r.value] else args.instances)
  }

  function MapSources<I>(m: Mapping, n: nat, instances: map<Uri, I>, mapper: Mapper<I>): (r: Args<I>)
    requires n <= |m.sources|
    ensures |r.values| == n
    decreases m, n
  {
    if n == 0 then Args([], instances)
    else
      var before := MapSources(m, n - 1, instances, mapper);
      var next := MapSource(m.sources[n - 1], before.instances, mapper);
      Args(before.values + [next.r], next.instances)
  }

  function MapSource<I>(s: Source, instances: map<Uri, I>, mapper: Mapper<I>): Memo<I>
    decreases s, 0
  {
    match s
    case FromInput(u) => Memo(Lookup(instances, u), instances)
    case FromMapping(m) => MapRec(m, instances, mapper)
  }

  class MappingRun<I> {
    var instances: map<Uri, I>
    const mapper: Mapper<I>

    constructor (inputs: map<Uri, I>, mapper: Mapper<I>)
      ensures instances == inputs && this.mapper == mapper
    {
      instances := inputs;
      this.mapper := mapper;
    }

    method Map(m: Mapping) returns (r: Option<I>)
      modifies this
      ensures Memo(r, instances) == MapRec(m, old(instances), mapper)
      decreases m
    {
      if m.output in instances || m.api.None? { return Lookup(instances, m.output); }
      ghost var start := instances;
      var args, i := [], 0;
      while i < |m.sources|
        invariant 0 <= i <= |m.sources| && Args(args, instances) == MapSources(m, i, start, mapper)
      {
        match m.sources[i] {
          case FromInput(u) =>
            args := args + [Lookup(instances, u)];
          case FromMapping(s) =>
            var v := Map(s);
            args := args + [v];
        }
        i := i + 1;
      }
      r := mapper(m.api.value, args);
      if r.Some? { instances := instances[m.output := r.value]; }
    }
  }

  /** The table holds the inputs, and for other URIs what direct evaluation gives for the part of the root
      mapping that produces them. */
  ghost predicate Faithful<I(!new)>(c: Context, root: Mapping, inputs: map<Uri, I>, instances: map<Uri, I>,
                                    mapper: Mapper<I>) {
    && (forall u | u in inputs :: u in instances && instances[u] == inputs[u])
    && forall u {:trigger IsFromPart(root, inputs, mapper, u, instances[u])} | u in instances && u !in inputs ::
      IsFromPart(root, inputs, mapper, u, instances[u])
  }

  ghost predicate IsFromPart<I(!new)>(root: Mapping, inputs: map<Uri, I>, mapper: Mapper<I>, u: Uri, value: I) {
    exists x :: x in Parts(root) && x.output == u && Eval(x, inputs, mapper) == Some(value)
  }

  lemma {:induction false} MapRecIsEval<I(!new)>(c: Context, root: Mapping, m: Mapping, inputs: map<Uri, I>,
                                                 instances: map<Uri, I>, mapper: Mapper<I>)
    requires Shares(c, root) && m in Parts(root) && IsDerivation(c, m) && inputs.Keys == c.inputs
    requires Faithful(c, root, inputs, instances, mapper)
    ensures MapRec(m, instances, mapper).r == Eval(m, inputs, mapper)
    ensures Faithful(c, root, inputs, MapRec(m, instances, mapper).instances, mapper)
    decreases m, |m.sources| + 1, 0
  {
    assert IsOnly(root, m);
    if m.output in instances {
      assert m.output !in inputs && IsFromPart(root, inputs, mapper, m.output, instances[m.output]);
    } else {
      MapSourcesIsEval(c, root, m, |m.sources|, inputs, instances, mapper);
      assert m.output !in inputs;
    }
  }

  lemma SourceOfPart(c: Context, root: Mapping, m: Mapping, i: nat)
    requires m in Parts(root) && IsDerivation(c, m) && i < |m.sources|
    ensures m.sources[i].FromInput? ==> m.sources[i].uri in c.inputs
    ensures m.sources[i].FromMapping? ==> m.sources[i].m in Parts(root) && IsDerivation(c, m.sources[i].m)
  {
    var s := m.sources[i];
    assert Supplies(c, s, m.api.value.inputs[i]) && s in m.sources;
    if s.FromMapping? {
      assert s.m in Parts(s.m) && s.m in Parts(m);
      PartsOfParts(root, m);
    }
  }

  lemma {:induction false} MapSourcesIsEval<I(!new)>(c: Context, root: Mapping, m: Mapping, n: nat, inputs: map<Uri, I>,
                                                     instances: map<Uri, I>, mapper: Mapper<I>)
    requires Shares(c, root) && m in Parts(root) && IsDerivation(c, m) && inputs.Keys == c.inputs && n <= |m.sources|
    requires Faithful(c, root, inputs, instances, mapper)
    ensures MapSources(m, n, instances, mapper).values == EvalSources(m, n, inputs, mapper)
    ensures Faithful(c, root, inputs, MapSources(m, n, instances, mapper).instances, mapper)
    decreases m, n, 1
  {
    if n > 0 {
      MapSourcesIsEval(c, root, m, n - 1, inputs, instances, mapper);
      NextSourceIsEval(c, root, m, n - 1, inputs, MapSources(m, n - 1, instances, mapper).instances, mapper);
    }
  }

  lemma {:induction false} NextSourceIsEval<I(!new)>(c: Context, root: Mapping, m: Mapping, i: nat, inputs: map<Uri, I>,
                                                     instances: map<Uri, I>, mapper: Mapper<I>)
    requires Shares(c, root) && m in Parts(root) && IsDerivation(c, m) && inputs.Keys == c.inputs && i < |m.sources|
    requires Faithful(c, root, inputs, instances, mapper)
    ensures MapSource(m.sources[i], instances, mapper).r == EvalSource(m.sources[i], inputs, mapper)
    ensures Faithful(c, root, inputs, MapSource(m.sources[i], instances, mapper).instances, mapper)
    decreases m, i + 1, 0
  {
    SourceOfPart(c, root, m, i);
    var s := m.sources[i];
    if s.FromMapping? { MapRecIsEval(c, root, s.m, inputs, instances, mapper); }
  }

  lemma {:induction false} EvalSourcesAt<I>(m: Mapping, n: nat, inputs: map<Uri, I>, mapper: Mapper<I>, i: nat)
    requires i < n <= |m.sources|
    ensures |EvalSources(m, n, inputs, mapper)| == n
    ensures EvalSources(m, n, inputs, mapper)[i] == EvalSource(m.sources[i], inputs, mapper)
    decreases n
  {
    if i < n - 1 {
      EvalSourcesAt(m, n - 1, inputs, mapper, i);
    } else if n > 1 {
      EvalSourcesAt(m, n - 1, inputs, mapper, 0);
    }
  }

  /** Evaluation of a derivation: the function of a registered plugin for the output, applied to one value for each
      input of the plugin, in their order: the instance that is given, or the value of a derivation of that URI. */
  lemma EvalAppliesPlugin<I>(c: Context, m: Mapping, inputs: map<Uri, I>, mapper: Mapper<I>)
    returns (args: seq<Option<I>>)
    requires IsDerivation(c, m) && inputs.Keys == c.inputs
    ensures var p := m.api.value;
      && p in c.plugins && p.output == m.output && |args| == |p.inputs| == |m.sources|
      && Eval(m, inputs, mapper) == mapper(p, args)
      && forall i | 0 <= i < |args| ::
        if p.inputs[i] in inputs then args[i] == Some(inputs[p.inputs[i]])
        else m.sources[i].FromMapping? && m.sources[i].m.output == p.inputs[i] && IsDerivation(c, m.sources[i].m)
             && args[i] == Eval(m.sources[i].m, inputs, mapper)
  {
    args := EvalSources(m, |m.sources|, inputs, mapper);
    if m.sources != [] { EvalSourcesAt(m, |m.sources|, inputs, mapper, 0); }
    forall i | 0 <= i < |m.sources| ensures args[i] == EvalSource(m.sources[i], inputs, mapper) {
      EvalSourcesAt(m, |m.sources|, inputs, mapper, i);
    }
    assert forall i | 0 <= i < |m.sources| ::
      m.sources[i] in m.sources && Supplies(c, m.sources[i], m.api.value.inputs[i]);
  }

  /** A result is remembered: evaluating again looks it up and changes nothing, whatever the function would give. */
  lemma ResultIsRemembered<I>(m: Mapping, instances: map<Uri, I>, mapper: Mapper<I>, other: Mapper<I>)
    requires MapRec(m, instances, mapper).r.Some?
    ensures var a := MapRec(m, instances, mapper);
      m.output in a.instances && a.instances[m.output] == a.r.value && MapRec(m, a.instances, other) == a
  {}

  /** For a mapping that the search returned, evaluation with the table of instances gives the same result
      as direct evaluation of the tree, for all mapper functions. The mapping is one to the output; if that is
      given, the result is the given instance, at no cost. */
  lemma MemoisedEvaluationIsDirect<I(!new)>(c: Context, output: Uri, inputs: map<Uri, I>, mapper: Mapper<I>)
    requires CreateBase(c, output).Found? && inputs.Keys == c.inputs
    ensures var m := CreateBase(c, output).m;
      && MapRec(m, inputs, mapper).r == Eval(m, inputs, mapper) && m.output == output
      && (output in inputs ==> MapRec(m, inputs, mapper).r == Some(inputs[output]) && m.cost == 0)
      && (output !in inputs ==> IsDerivation(c, m))
  {
    if output !in c.inputs {
      SearchIsSound(c, output);
      var m := CreateBase(c, output).m;
      MapRecIsEval(c, m, m, inputs, inputs, mapper);
    }
  }
}
