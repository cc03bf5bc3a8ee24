/** Narrowing along a lineage of resumed chains, and what is left of the edges. */
module Scope {
  import opened Prelude
  import opened Routes
  import opened Graph

  /** The pipeline a chain belongs to, and the pipelines of the chains it resumes. */
  datatype ChainScope = ChainScope(pipeline: Option<Pipeline>, within: set<Option<Pipeline>>)

  /** The scope of a chain with no ancestry. */
  function Of(pipeline: Option<Pipeline>): ChainScope {
    ChainScope(pipeline, {})
  }

  /** An ancestry never holds the scope's own pipeline. */
  function New(pipeline: Option<Pipeline>, within: set<Option<Pipeline>>): ChainScope {
    ChainScope(pipeline, within - {pipeline})
  }

  /** One step down a lineage: `booked` becomes ancestry. */
  function Resuming(resuming: Option<Pipeline>, booked: ChainScope): ChainScope {
    New(resuming, booked.within + {booked.pipeline})
  }

  datatype Config = Config(pipelines: set<Pipeline>, routes: seq<Route>)

  /** A graph for each pipeline named anywhere, and one for all other chains. */
  datatype RouteMap = RouteMap(
    everything: RouteGraph, global: RouteGraph, pipelines: map<Pipeline, RouteGraph>)
  {
    /** A lookup, with the global graph for a name that is not there. */
    function ForPipeline(pipeline: Option<Pipeline>): RouteGraph {
      if pipeline.Some? && pipeline.value in pipelines then pipelines[pipeline.value] else global
    }

    /** The fold of `RestrictedTo` over the ancestry, taken in `order`. */
    function ForScope(scope: ChainScope, order: seq<Option<Pipeline>>): RouteGraph
      requires Elements(order) == scope.within
    {
      if scope.within == {} then ForPipeline(scope.pipeline)
      else Narrow(ForPipeline(scope.pipeline), order)
    }

    function Narrow(graph: RouteGraph, ancestors: seq<Option<Pipeline>>): RouteGraph
      decreases |ancestors|
    {
      if ancestors == [] then graph
      else Narrow(graph.RestrictedTo(ForPipeline(ancestors[0])), ancestors[1..])
    }
  }

  function Named(routes: seq<Route>): set<Pipeline> {
    set r, name | r in routes && r.pipelines.Some? && name in r.pipelines.value :: name
  }

  /** The map for `config`: a graph for each pipeline it declares or a route names. */
  function FromConfig(config: Config): RouteMap {
    RouteMap(
      GraphOf(config.routes),
      GraphOf(Applying(config.routes, None)),
      map name | name in config.pipelines + Named(config.routes)
        :: GraphOf(Applying(config.routes, Some(name))))
  }

  lemma {:induction false} UnnamedIsGlobal(routes: seq<Route>, name: Pipeline)
    requires name !in Named(routes)
    ensures Applying(routes, Some(name)) == Applying(routes, None)
  {
    if routes != [] {
      assert routes[0] in routes;
      forall n | n in Named(routes[1..]) ensures n in Named(routes) {
        var r :| r in routes[1..] && r.pipelines.Some? && n in r.pipelines.value;
        assert r in routes;
      }
      UnnamedIsGlobal(routes[1..], name);
    }
  }

  /** The precomputed map agrees with filtering the routes afresh, for every name, declared or not. */
  lemma MapAgreesWithFiltering(config: Config, pipeline: Option<Pipeline>)
    ensures FromConfig(config).ForPipeline(pipeline) == GraphOf(Applying(config.routes, pipeline))
  {
    if pipeline.Some? && pipeline.value !in config.pipelines + Named(config.routes) {
      UnnamedIsGlobal(config.routes, pipeline.value);
    }
  }

  /** So an edge is open to a pipeline's chains exactly when a route that applies to it draws it. */
  lemma PipelinePermits(config: Config, pipeline: Option<Pipeline>, from: Agent, to: Agent)
    ensures FromConfig(config).ForPipeline(pipeline).Permits(from, to)
            <==> exists r :: r in config.routes && r.AppliesTo(pipeline) && Joins(r, from, to)
  {
    MapAgreesWithFiltering(config, pipeline);
    GraphOfPermits(Applying(config.routes, pipeline), from, to);
    if r :| r in config.routes && r.AppliesTo(pipeline) && Joins(r, from, to) {
      assert r in Applying(config.routes, pipeline);
    }
  }

  lemma {:induction false} NarrowPermits(
    routes: RouteMap, graph: RouteGraph, ancestors: seq<Option<Pipeline>>, from: Agent, to: Agent)
    ensures routes.Narrow(graph, ancestors).Permits(from, to)
            <==> graph.Permits(from, to)
                 && forall p :: p in ancestors ==> routes.ForPipeline(p).Permits(from, to)
    ensures routes.Narrow(graph, ancestors).IsSpawn(from, to)
            <==> graph.IsSpawn(from, to)
                 && forall p :: p in ancestors ==> routes.ForPipeline(p).Permits(from, to)
    ensures routes.Narrow(graph, ancestors).joins == graph.joins
    decreases |ancestors|
  {
    if ancestors != [] {
      var other := routes.ForPipeline(ancestors[0]);
      RestrictedPermits(graph, other, from, to);
      NarrowPermits(routes, graph.RestrictedTo(other), ancestors[1..], from, to);
      assert ancestors == [ancestors[0]] + ancestors[1..];
    }
  }

  // ----- lineages -----

  /** The scope of the last chain of a lineage: each chain after the first resumes the one before. */
  function ScopeOf(lineage: seq<Option<Pipeline>>): ChainScope
    requires lineage != []
  {
    var last := lineage[|lineage| - 1];
    if |lineage| == 1 then Of(last) else Resuming(last, ScopeOf(lineage[..|lineage| - 1]))
  }

  /** A scope remembers exactly the pipelines of its lineage, its own apart from its ancestors'. */
  lemma {:induction false} LineageIsRemembered(lineage: seq<Option<Pipeline>>)
    requires lineage != []
    ensures ScopeOf(lineage).pipeline == lineage[|lineage| - 1]
    ensures ScopeOf(lineage).within == Elements(lineage) - {lineage[|lineage| - 1]}
    decreases |lineage|
  {
    var last := lineage[|lineage| - 1];
    assert lineage == lineage[..|lineage| - 1] + [last];
    if |lineage| > 1 {
      LineageIsRemembered(lineage[..|lineage| - 1]);
    }
  }

  /** A chain may use an edge exactly when every pipeline of its lineage permits it; it spawns along
      it exactly when its own pipeline does; and its joins are its own pipeline's. */
  lemma LineagePermits(
    routes: RouteMap, lineage: seq<Option<Pipeline>>, order: seq<Option<Pipeline>>, from: Agent, to: Agent)
    requires lineage != [] && Elements(order) == ScopeOf(lineage).within
    ensures var graph := routes.ForScope(ScopeOf(lineage), order);
            var own := routes.ForPipeline(lineage[|lineage| - 1]);
            && (graph.Permits(from, to)
                <==> forall p :: p in lineage ==> routes.ForPipeline(p).Permits(from, to))
            && (graph.Permits(from, to) ==> graph.IsSpawn(from, to) == own.IsSpawn(from, to))
            && graph.joins == own.joins
  {
    LineageIsRemembered(lineage);
    var scope := ScopeOf(lineage);
    NarrowPermits(routes, routes.ForPipeline(scope.pipeline), order, from, to);
    forall p ensures p in lineage <==> p == scope.pipeline || p in order {
      assert p in Elements(lineage) <==> p in lineage;
      assert p in Elements(order) <==> p in order;
    }
    if order == [] { assert scope.within == {}; }
    if scope.within == {} { assert forall p :: p in order ==> p in Elements(order); }
  }

  /** Setting work down and picking it up again never gives a chain an edge it could not use. */
  lemma PermissionsNeverWiden(
    routes: RouteMap, lineage: seq<Option<Pipeline>>, resuming: Option<Pipeline>,
    before: seq<Option<Pipeline>>, after: seq<Option<Pipeline>>, from: Agent, to: Agent)
    requires lineage != []
    requires Elements(before) == ScopeOf(lineage).within
    requires Elements(after) == Resuming(resuming, ScopeOf(lineage)).within
    requires routes.ForScope(Resuming(resuming, ScopeOf(lineage)), after).Permits(from, to)
    ensures routes.ForScope(ScopeOf(lineage), before).Permits(from, to)
    ensures routes.ForPipeline(resuming).Permits(from, to)
  {
    var longer := lineage + [resuming];
    assert longer[..|longer| - 1] == lineage;
    LineagePermits(routes, lineage, before, from, to);
    LineagePermits(routes, longer, after, from, to);
    assert resuming in longer && forall p :: p in lineage ==> p in longer;
  }

  /** Repeats narrow no further: what a lineage may use depends on where it ends and on which
      pipelines it ever passed through, not on how often or in what order. */
  lemma RepeatsNarrowNoFurther(a: seq<Option<Pipeline>>, b: seq<Option<Pipeline>>)
    requires a != [] && b != []
    ensures ScopeOf(a) == ScopeOf(b)
            <==> a[|a| - 1] == b[|b| - 1] && Elements(a) == Elements(b)
  {
    LineageIsRemembered(a);
    LineageIsRemembered(b);
    assert a[|a| - 1] in Elements(a) && b[|b| - 1] in Elements(b);
    if ScopeOf(a) == ScopeOf(b) {
      assert Elements(a) == ScopeOf(a).within + {ScopeOf(a).pipeline};
      assert Elements(b) == ScopeOf(b).within + {ScopeOf(b).pipeline};
    }
  }

  lemma {:induction false} NarrowDropsEmpties(
    routes: RouteMap, graph: RouteGraph, ancestors: seq<Option<Pipeline>>)
    requires ancestors != []
    ensures NoEmpties(routes.Narrow(graph, ancestors).edges)
    ensures NoEmpties(routes.Narrow(graph, ancestors).spawns)
    decreases |ancestors|
  {
    var other := routes.ForPipeline(ancestors[0]);
    if |ancestors| > 1 {
      NarrowDropsEmpties(routes, graph.RestrictedTo(other), ancestors[1..]);
    } else {
      assert routes.Narrow(graph, ancestors) == routes.Narrow(graph.RestrictedTo(other), []);
      RestrictedHasNoEmpties(graph.edges, other);
      RestrictedHasNoEmpties(graph.spawns, other);
    }
  }

  /** The graph of a scope does not depend on the order its ancestry is walked in. */
  lemma OrderDoesNotMatter(
    routes: RouteMap, scope: ChainScope, a: seq<Option<Pipeline>>, b: seq<Option<Pipeline>>)
    requires Elements(a) == scope.within == Elements(b)
    ensures routes.ForScope(scope, a) == routes.ForScope(scope, b)
  {
    if scope.within != {} {
      var own := routes.ForPipeline(scope.pipeline);
      var m, n := routes.Narrow(own, a), routes.Narrow(own, b);
      forall from, to
        ensures m.Permits(from, to) == n.Permits(from, to) && m.IsSpawn(from, to) == n.IsSpawn(from, to)
      {
        NarrowPermits(routes, own, a, from, to);
        NarrowPermits(routes, own, b, from, to);
        forall p ensures p in a <==> p in b {
          assert p in Elements(a) <==> p in Elements(b);
        }
      }
      assert a != [] && b != [];
      NarrowDropsEmpties(routes, own, a);
      NarrowDropsEmpties(routes, own, b);
      NarrowPermits(routes, own, a, "", "");
      NarrowPermits(routes, own, b, "", "");
      var edges := iset e: (Agent, Agent) | m.Permits(e.0, e.1);
      var spawns := iset e: (Agent, Agent) | m.IsSpawn(e.0, e.1);
      assert Holds(m.edges, edges);
      forall x, y ensures (x, y) in edges <==> x in n.edges && y in n.edges[x] {
        assert m.Permits(x, y) == n.Permits(x, y);
      }
      assert Holds(n.edges, edges);
      assert Holds(m.spawns, spawns);
      forall x, y ensures (x, y) in spawns <==> x in n.spawns && y in n.spawns[x] {
        assert m.IsSpawn(x, y) == n.IsSpawn(x, y);
      }
      assert Holds(n.spawns, spawns);
      HoldsIsUnique(m.edges, n.edges, edges);
      HoldsIsUnique(m.spawns, n.spawns, spawns);
    }
  }
}
