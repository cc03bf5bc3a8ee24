/** Graphs of routes, and breadth-first walks of them against shortest paths and closures. */
module Graph {
  import opened Prelude
  import opened Routes

  /** Whom an agent waits for: all of `upstreams`, or any. */
  datatype JoinSpec = JoinSpec(upstreams: set<Agent>, join: Join, timeoutSec: Option<nat>)

  /** Edges by sender. Every edge in `spawns` is in `edges` too. */
  datatype RouteGraph = RouteGraph(
    edges: map<Agent, set<Agent>>,
    spawns: map<Agent, set<Agent>>,
    joins: map<Agent, JoinSpec>)
  {
    predicate Permits(from: Agent, to: Agent) {
      from in edges && to in edges[from]
    }

    predicate IsSpawn(from: Agent, to: Agent) {
      from in spawns && to in spawns[from]
    }

    function Successors(from: Agent): set<Agent> {
      if from in edges then edges[from] else {}
    }

    /** One step of a walk: along any edge when `crossing`, otherwise never along a spawn edge. */
    predicate Step(crossing: bool, from: Agent, to: Agent) {
      Permits(from, to) && (crossing || !IsSpawn(from, to))
    }

    /** Whether a rendezvous at `to` waits for `from`. */
    predicate Awaits(to: Agent, from: Agent) {
      to in joins && from in joins[to].upstreams
    }

    /** Whether what `from` sends may have to wait at `to` for somebody else. */
    predicate MayHold(from: Agent, to: Agent) {
      Awaits(to, from) && joins[to].join.All? && joins[to].upstreams != {from}
    }

    /** A step that continues the chain and on which a flight waits for nobody. */
    predicate FreeStep(from: Agent, to: Agent) {
      Step(false, from, to) && !MayHold(from, to)
    }

    /** This graph without the edges on which a flight may have to wait. */
    function Unheld(): RouteGraph {
      RouteGraph(KeepFree(edges), KeepFree(spawns), joins)
    }

    function KeepFree(edges: map<Agent, set<Agent>>): map<Agent, set<Agent>> {
      map from | from in edges :: set to | to in edges[from] && !MayHold(from, to)
    }

    /** The intersection with `other`'s edges. Joins are not narrowed. */
    function RestrictedTo(other: RouteGraph): RouteGraph {
      RouteGraph(KeepPermitted(edges, other), KeepPermitted(spawns, other), joins)
    }

    function Nodes(): set<Agent> {
      set from, to | from in edges && to in edges[from] :: to
    }
  }

  function KeepPermitted(edges: map<Agent, set<Agent>>, other: RouteGraph): map<Agent, set<Agent>> {
    map from | from in edges && (exists to :: to in edges[from] && other.Permits(from, to))
      :: set to | to in edges[from] && other.Permits(from, to)
  }

  lemma UnheldSteps(g: RouteGraph, from: Agent, to: Agent)
    ensures g.Unheld().Step(false, from, to) <==> g.FreeStep(from, to)
    ensures g.Unheld().IsSpawn(from, to) <==> g.IsSpawn(from, to) && !g.MayHold(from, to)
  {
  }

  // ----- building -----

  predicate Joins(r: Route, from: Agent, to: Agent) {
    from in r.from && to in r.to
  }

  /** The rendezvous the last joined route into `agent` declares: a later one replaces it. */
  function JoinOf(routes: seq<Route>, agent: Agent): Option<JoinSpec> {
    if routes == [] then None
    else
      var last := routes[|routes| - 1];
      if last.join.Some? && agent in last.to
      then Some(JoinSpec(Elements(last.from), last.join.value, last.timeoutSec))
      else JoinOf(routes[..|routes| - 1], agent)
  }

  function Receivers(routes: seq<Route>): set<Agent> {
    set r, to | r in routes && to in r.to :: to
  }

  function Senders(routes: seq<Route>): set<Agent> {
    set r, from | r in routes && from in r.from :: from
  }

  /** What `from` may send to along one of `routes`: all of them, or only those that spawn. */
  function Targets(routes: seq<Route>, spawning: bool, from: Agent): set<Agent> {
    set r, to | r in routes && from in r.from && to in r.to && (spawning ==> r.IsSpawn()) :: to
  }

  function EdgeMap(routes: seq<Route>, spawning: bool): map<Agent, set<Agent>> {
    map from | from in Senders(routes) && Targets(routes, spawning, from) != {}
      :: Targets(routes, spawning, from)
  }

  /** The graph of exactly these routes. */
  function GraphOf(routes: seq<Route>): RouteGraph {
    RouteGraph(
      EdgeMap(routes, false),
      EdgeMap(routes, true),
      map agent | agent in Receivers(routes) && JoinOf(routes, agent).Some?
        :: JoinOf(routes, agent).value)
  }

  lemma GraphOfPermits(routes: seq<Route>, from: Agent, to: Agent)
    ensures GraphOf(routes).Permits(from, to) <==> exists r :: r in routes && Joins(r, from, to)
    ensures GraphOf(routes).IsSpawn(from, to)
            <==> exists r :: r in routes && Joins(r, from, to) && r.IsSpawn()
  {
    if r :| r in routes && Joins(r, from, to) {
      assert to in Targets(routes, false, from);
    }
    if r :| r in routes && Joins(r, from, to) && r.IsSpawn() {
      assert to in Targets(routes, true, from);
    }
  }

  /** `routes[k]` is joined into `agent`, and no later route is. */
  ghost predicate JoinsLast(routes: seq<Route>, agent: Agent, k: nat) {
    && k < |routes| && routes[k].join.Some? && agent in routes[k].to
    && forall j :: k < j < |routes| ==> !(routes[j].join.Some? && agent in routes[j].to)
  }

  /** An agent waits exactly when some joined route leads to it, for those the last such route comes from, as it
      says; and whoever it waits for may send to it. */
  lemma GraphOfJoins(routes: seq<Route>, agent: Agent)
    ensures agent in GraphOf(routes).joins <==> exists r :: r in routes && r.join.Some? && agent in r.to
    ensures forall k: nat :: JoinsLast(routes, agent, k) ==>
              && agent in GraphOf(routes).joins
              && (forall m :: m in GraphOf(routes).joins[agent].upstreams <==> m in routes[k].from)
              && GraphOf(routes).joins[agent].join == routes[k].join.value
              && GraphOf(routes).joins[agent].timeoutSec == routes[k].timeoutSec
    ensures forall m :: GraphOf(routes).Awaits(agent, m) ==> GraphOf(routes).Permits(m, agent)
  {
    hide EdgeMap;
    JoinOfIsLast(routes, agent);
    if JoinOf(routes, agent).Some? {
      JoinHasReceiver(routes, agent);
    }
    forall m | GraphOf(routes).Awaits(agent, m) ensures GraphOf(routes).Permits(m, agent) {
      var k: nat :| JoinsLast(routes, agent, k);
      assert Joins(routes[k], m, agent);
      GraphOfPermits(routes, m, agent);
    }
  }

  lemma {:induction false} JoinOfIsLast(routes: seq<Route>, agent: Agent)
    ensures JoinOf(routes, agent).Some? <==> exists r :: r in routes && r.join.Some? && agent in r.to
    ensures JoinOf(routes, agent).Some? ==> exists k: nat :: JoinsLast(routes, agent, k)
    ensures forall k: nat :: JoinsLast(routes, agent, k) ==>
              JoinOf(routes, agent)
              == Some(JoinSpec(Elements(routes[k].from), routes[k].join.value, routes[k].timeoutSec))
    decreases |routes|
  {
    if routes != [] {
      var n := |routes| - 1;
      assert routes == routes[..n] + [routes[n]];
      if routes[n].join.Some? && agent in routes[n].to {
        assert JoinsLast(routes, agent, n);
        assert forall k: nat :: JoinsLast(routes, agent, k) ==> k == n;
      } else {
        JoinOfIsLast(routes[..n], agent);
        forall k: nat ensures JoinsLast(routes, agent, k) <==> JoinsLast(routes[..n], agent, k) {
          assert JoinsLast(routes, agent, k) ==> k != n;
        }
      }
    }
  }

  /** `edges[from]` with `to` added, as the entry API does it. */
  function Insert(edges: map<Agent, set<Agent>>, from: Agent, to: Agent): map<Agent, set<Agent>> {
    edges[from := (if from in edges then edges[from] else {}) + {to}]
  }

  ghost predicate NoEmpties(edges: map<Agent, set<Agent>>) {
    forall a :: a in edges ==> edges[a] != {}
  }

  ghost predicate Holds(edges: map<Agent, set<Agent>>, pairs: iset<(Agent, Agent)>) {
    && (forall a, b :: (a, b) in pairs <==> a in edges && b in edges[a])
    && NoEmpties(edges)
  }

  /** A route map is fixed by the pairs it holds, because it keeps no empty entry. */
  lemma HoldsIsUnique(m: map<Agent, set<Agent>>, n: map<Agent, set<Agent>>, pairs: iset<(Agent, Agent)>)
    requires Holds(m, pairs) && Holds(n, pairs)
    ensures m == n
  {
    forall a ensures a in m <==> a in n {
      if a in m { var b :| b in m[a]; assert (a, b) in pairs; }
      if a in n { var b :| b in n[a]; assert (a, b) in pairs; }
    }
    forall a | a in m ensures m[a] == n[a] {
      forall b ensures b in m[a] <==> b in n[a] {
        assert (a, b) in pairs <==> b in m[a];
      }
    }
  }

  ghost function Pairs(routes: seq<Route>, spawning: bool): iset<(Agent, Agent)> {
    iset e: (Agent, Agent) | e.1 in Targets(routes, spawning, e.0)
  }

  lemma EdgeMapHolds(routes: seq<Route>, spawning: bool)
    ensures Holds(EdgeMap(routes, spawning), Pairs(routes, spawning))
  {
    forall a, b | b in Targets(routes, spawning, a) ensures a in Senders(routes) {
      var r :| r in routes && a in r.from && b in r.to && (spawning ==> r.IsSpawn());
    }
  }

  ghost function Cross(r: Route): iset<(Agent, Agent)> {
    iset e: (Agent, Agent) | Joins(r, e.0, e.1)
  }

  lemma InsertHolds(edges: map<Agent, set<Agent>>, pairs: iset<(Agent, Agent)>, from: Agent, to: Agent)
    requires Holds(edges, pairs)
    ensures Holds(Insert(edges, from, to), pairs + iset{(from, to)})
  {
  }

  /** Adds one route's edges, every sender to every receiver. */
  method AddEdges(edges: map<Agent, set<Agent>>, ghost pairs: iset<(Agent, Agent)>, r: Route)
    returns (added: map<Agent, set<Agent>>)
    requires Holds(edges, pairs)
    ensures Holds(added, pairs + Cross(r))
  {
    hide Holds, Insert;
    added := edges;
    ghost var grown := pairs;
    for i := 0 to |r.from|
      invariant Holds(added, grown)
      invariant forall a, b :: (a, b) in grown <==> (a, b) in pairs || (a in r.from[..i] && b in r.to)
    {
      for j := 0 to |r.to|
        invariant Holds(added, grown)
        invariant forall a, b :: (a, b) in grown <==>
          (a, b) in pairs || (a in r.from[..i] && b in r.to) || (a == r.from[i] && b in r.to[..j])
      {
        InsertHolds(added, grown, r.from[i], r.to[j]);
        added := Insert(added, r.from[i], r.to[j]);
        grown := grown + iset{(r.from[i], r.to[j])};
        assert r.to[..j + 1] == r.to[..j] + [r.to[j]];
      }
      assert r.to[..|r.to|] == r.to;
      assert r.from[..i + 1] == r.from[..i] + [r.from[i]];
    }
    assert r.from[..|r.from|] == r.from;
    forall e: (Agent, Agent) ensures e in grown <==> e in pairs + Cross(r) {
      assert e == (e.0, e.1);
    }
    assert grown == pairs + Cross(r);
  }

  /** The loops over senders and receivers, against `GraphOf`. */
  method FromRoutes(routes: seq<Route>) returns (graph: RouteGraph)
    ensures graph == GraphOf(routes)
  {
    var edges: map<Agent, set<Agent>> := map[];
    var spawns: map<Agent, set<Agent>> := map[];
    var joins: map<Agent, JoinSpec> := map[];
    for k := 0 to |routes|
      invariant Holds(edges, Pairs(routes[..k], false))
      invariant Holds(spawns, Pairs(routes[..k], true))
      invariant forall a :: a in joins <==> JoinOf(routes[..k], a).Some?
      invariant forall a :: a in joins ==> joins[a] == JoinOf(routes[..k], a).value
    {
      var route := routes[k];
      assert routes[..k + 1] == routes[..k] + [route];
      edges := AddEdges(edges, Pairs(routes[..k], false), route);
      PairsGrow(routes[..k], route, false);
      if route.IsSpawn() {
        spawns := AddEdges(spawns, Pairs(routes[..k], true), route);
      }
      PairsGrow(routes[..k], route, true);
      if route.join.Some? {
        var spec := JoinSpec(Elements(route.from), route.join.value, route.timeoutSec);
        joins := joins + map to | to in route.to :: spec;
      }
    }
    assert routes[..|routes|] == routes;
    EdgeMapHolds(routes, false);
    EdgeMapHolds(routes, true);
    HoldsIsUnique(edges, EdgeMap(routes, false), Pairs(routes, false));
    HoldsIsUnique(spawns, EdgeMap(routes, true), Pairs(routes, true));
    forall a | JoinOf(routes, a).Some? ensures a in Receivers(routes) {
      JoinHasReceiver(routes, a);
    }
    graph := RouteGraph(edges, spawns, joins);
    assert joins == GraphOf(routes).joins;
  }

  lemma PairsGrow(routes: seq<Route>, r: Route, spawning: bool)
    ensures Pairs(routes + [r], spawning)
            == Pairs(routes, spawning) + if spawning && !r.IsSpawn() then iset{} else Cross(r)
  {
    forall a, b
      ensures b in Targets(routes + [r], spawning, a)
              <==> b in Targets(routes, spawning, a) || (Joins(r, a, b) && (spawning ==> r.IsSpawn()))
    {
      assert r in routes + [r];
    }
  }

  lemma JoinHasReceiver(routes: seq<Route>, agent: Agent)
    requires JoinOf(routes, agent).Some?
    ensures agent in Receivers(routes)
  {
    var last := routes[|routes| - 1];
    if !(last.join.Some? && agent in last.to) {
      JoinHasReceiver(routes[..|routes| - 1], agent);
      var r, to :| r in routes[..|routes| - 1] && to in r.to && to == agent;
      assert r in routes;
    }
  }

  // ----- narrowing -----

  /** A narrowed graph permits, and spawns, exactly what both graphs permit. */
  lemma RestrictedPermits(g: RouteGraph, other: RouteGraph, from: Agent, to: Agent)
    ensures g.RestrictedTo(other).Permits(from, to) <==> g.Permits(from, to) && other.Permits(from, to)
    ensures g.RestrictedTo(other).IsSpawn(from, to) <==> g.IsSpawn(from, to) && other.Permits(from, to)
  {
  }

  lemma RestrictedHasNoEmpties(edges: map<Agent, set<Agent>>, other: RouteGraph)
    ensures NoEmpties(KeepPermitted(edges, other))
  {
    var kept := KeepPermitted(edges, other);
    forall from | from in kept ensures kept[from] != {} {
      var to :| to in edges[from] && other.Permits(from, to);
      assert to in kept[from];
    }
  }

  // ----- walking -----

  /** `p` is a walk from one of `sources` to `a`. */
  ghost predicate Walk(g: RouteGraph, crossing: bool, sources: set<Agent>, a: Agent, p: seq<Agent>) {
    && |p| > 0 && p[0] in sources && p[|p| - 1] == a
    && forall i :: 0 <= i < |p| - 1 ==> g.Step(crossing, p[i], p[i + 1])
  }

  ghost predicate Reachable(g: RouteGraph, crossing: bool, sources: set<Agent>, a: Agent) {
    exists p :: Walk(g, crossing, sources, a, p)
  }

  /** `n` is the length in edges of a shortest walk to `a`. */
  ghost predicate Shortest(g: RouteGraph, crossing: bool, sources: set<Agent>, a: Agent, n: nat) {
    && (exists p :: Walk(g, crossing, sources, a, p) && |p| == n + 1)
    && (forall p :: Walk(g, crossing, sources, a, p) ==> |p| >= n + 1)
  }

  lemma WalkExtends(g: RouteGraph, crossing: bool, sources: set<Agent>, a: Agent, p: seq<Agent>, b: Agent)
    requires Walk(g, crossing, sources, a, p) && g.Step(crossing, a, b)
    ensures Walk(g, crossing, sources, b, p + [b])
  {
  }

  lemma WalkShortens(g: RouteGraph, crossing: bool, sources: set<Agent>, a: Agent, p: seq<Agent>)
    requires Walk(g, crossing, sources, a, p) && |p| > 1
    ensures Walk(g, crossing, sources, p[|p| - 2], p[..|p| - 1])
    ensures g.Step(crossing, p[|p| - 2], a)
  {
    assert g.Step(crossing, p[|p| - 2], p[|p| - 2 + 1]);
  }

  /** Distances that start at zero and grow by at most one along every step bound every walk. */
  lemma {:induction false} ClosedBoundsWalks(
    g: RouteGraph, sources: set<Agent>, seen: map<Agent, nat>, a: Agent, p: seq<Agent>)
    requires forall s :: s in sources ==> s in seen && seen[s] == 0
    requires forall u, v :: u in seen && g.Step(false, u, v) ==> v in seen && seen[v] <= seen[u] + 1
    requires Walk(g, false, sources, a, p)
    ensures a in seen && seen[a] + 1 <= |p|
    decreases |p|
  {
    if |p| > 1 {
      WalkShortens(g, false, sources, a, p);
      ClosedBoundsWalks(g, sources, seen, p[|p| - 2], p[..|p| - 1]);
    }
  }

  lemma {:induction false} ClosedHoldsWalks(
    g: RouteGraph, crossing: bool, sources: set<Agent>, closed: set<Agent>, a: Agent, p: seq<Agent>)
    requires sources <= closed
    requires forall u, v :: u in closed && g.Step(crossing, u, v) ==> v in closed
    requires Walk(g, crossing, sources, a, p)
    ensures a in closed
    decreases |p|
  {
    if |p| > 1 {
      WalkShortens(g, crossing, sources, a, p);
      ClosedHoldsWalks(g, crossing, sources, closed, p[|p| - 2], p[..|p| - 1]);
    }
  }

  /** The agents still to be expanded, as the breadth-first walk keeps them. */
  ghost predicate Frontier(seen: set<Agent>, done: set<Agent>, queue: seq<Agent>) {
    && (forall i, j :: 0 <= i < j < |queue| ==> queue[i] != queue[j])
    && (forall q :: q in queue ==> q in seen && q !in done)
    && (forall a :: a in seen ==> a in done || a in queue)
    && done <= seen
  }

  lemma Pop(seen: set<Agent>, done: set<Agent>, queue: seq<Agent>)
    requires Frontier(seen, done, queue) && queue != []
    ensures Frontier(seen, done + {queue[0]}, queue[1..])
    ensures queue[0] in seen && queue[0] !in done
  {
  }

  /** The queue's depths never fall, and never run more than one ahead of its head. */
  ghost predicate Layered(seen: map<Agent, nat>, done: set<Agent>, queue: seq<Agent>, depth: nat)
    requires forall q :: q in queue ==> q in seen
    requires done <= seen.Keys
  {
    && (forall i, j :: 0 <= i < j < |queue| ==> seen[queue[i]] <= seen[queue[j]])
    && (forall q :: q in queue ==> depth <= seen[q] <= depth + 1)
    && (forall u :: u in done ==> seen[u] <= depth)
  }

  /** Everything reached so far: the sources at zero, and a walk of the recorded length to each. */
  ghost predicate Witnessed(g: RouteGraph, sources: set<Agent>, seen: map<Agent, nat>) {
    && (forall s :: s in sources ==> s in seen && seen[s] == 0)
    && (forall a :: a in seen ==> ReachIn(g, sources, a, seen[a]))
    && seen.Keys <= sources + g.Nodes()
  }

  ghost predicate ReachIn(g: RouteGraph, sources: set<Agent>, a: Agent, n: nat) {
    exists p :: Walk(g, false, sources, a, p) && |p| == n + 1
  }

  lemma ReachInExtends(g: RouteGraph, sources: set<Agent>, a: Agent, n: nat, b: Agent)
    requires ReachIn(g, sources, a, n) && g.Step(false, a, b)
    ensures ReachIn(g, sources, b, n + 1) && b in g.Nodes()
  {
    var p :| Walk(g, false, sources, a, p) && |p| == n + 1;
    WalkExtends(g, false, sources, a, p, b);
  }

  ghost predicate Settled(g: RouteGraph, seen: map<Agent, nat>, u: Agent, to: set<Agent>)
    requires u in seen
  {
    forall v :: v in to && g.Step(false, u, v) ==> v in seen && seen[v] <= seen[u] + 1
  }

  lemma NoneFurther(seen: map<Agent, nat>, queue: seq<Agent>, done: set<Agent>, depth: nat)
    requires Frontier(seen.Keys, done, queue) && Layered(seen, done, queue, depth)
    ensures forall a :: a in seen ==> seen[a] <= depth + 1
  {
  }

  lemma Finds(g: RouteGraph, sources: set<Agent>, seen: map<Agent, nat>, queue: seq<Agent>, done: set<Agent>,
              current: Agent, next: Agent)
    requires current in seen && next !in seen && g.Step(false, current, next)
    requires Frontier(seen.Keys, done, queue) && Witnessed(g, sources, seen)
    requires Layered(seen, done, queue, seen[current])
    ensures var more := seen[next := seen[current] + 1];
            && Frontier(more.Keys, done, queue + [next])
            && Witnessed(g, sources, more) && Layered(more, done, queue + [next], seen[current])
  {
    ReachInExtends(g, sources, current, seen[current], next);
  }

  /** Looks along every edge out of `current`: the body of the breadth-first loop. */
  method Expand(g: RouteGraph, ghost sources: set<Agent>, current: Agent,
                before: map<Agent, nat>, waiting: seq<Agent>, ghost done: set<Agent>)
    returns (seen: map<Agent, nat>, queue: seq<Agent>)
    requires current in before
    requires Frontier(before.Keys, done, waiting)
    requires Witnessed(g, sources, before)
    requires Layered(before, done, waiting, before[current])
    ensures before.Keys <= seen.Keys && forall a :: a in before ==> seen[a] == before[a]
    ensures Frontier(seen.Keys, done, queue)
    ensures Witnessed(g, sources, seen)
    ensures Layered(seen, done, queue, before[current])
    ensures Settled(g, seen, current, g.Successors(current))
  {
    hide ReachIn, Witnessed, Layered;
    seen, queue := before, waiting;
    var depth := before[current];
    var rest := g.Successors(current);
    while rest != {}
      invariant rest <= g.Successors(current)
      invariant before.Keys <= seen.Keys && forall a :: a in before ==> seen[a] == before[a]
      invariant Frontier(seen.Keys, done, queue)
      invariant Witnessed(g, sources, seen)
      invariant Layered(seen, done, queue, depth)
      invariant Settled(g, seen, current, g.Successors(current) - rest)
    {
      var next :| next in rest;
      rest := rest - {next};
      NoneFurther(seen, queue, done, depth);
      if !g.IsSpawn(current, next) && next !in seen {
        Finds(g, sources, seen, queue, done, current, next);
        seen := seen[next := depth + 1];
        queue := queue + [next];
      }
    }
  }

  /** The sources, each once, at distance zero. */
  method Seed(g: RouteGraph, sources: seq<Agent>) returns (seen: map<Agent, nat>, queue: seq<Agent>)
    ensures Frontier(seen.Keys, {}, queue)
    ensures Witnessed(g, Elements(sources), seen)
    ensures Layered(seen, {}, queue, 0)
  {
    seen, queue := map[], [];
    for i := 0 to |sources|
      invariant Frontier(seen.Keys, {}, queue)
      invariant forall a :: a in seen <==> a in sources[..i]
      invariant forall a :: a in seen ==> seen[a] == 0
    {
      if sources[i] !in seen {
        seen := seen[sources[i] := 0];
        queue := queue + [sources[i]];
      }
    }
    forall a | a in seen ensures ReachIn(g, Elements(sources), a, 0) {
      assert Walk(g, false, Elements(sources), a, [a]);
    }
  }

  ghost predicate AllSettled(g: RouteGraph, seen: map<Agent, nat>, done: set<Agent>)
    requires done <= seen.Keys
  {
    forall u :: u in done ==> Settled(g, seen, u, g.Nodes())
  }

  /** What was settled stays settled as more agents are found. */
  lemma StaysSettled(g: RouteGraph, before: map<Agent, nat>, seen: map<Agent, nat>, done: set<Agent>, u: Agent)
    requires done <= before.Keys && u in before && AllSettled(g, before, done)
    requires before.Keys <= seen.Keys && forall a :: a in before ==> seen[a] == before[a]
    requires Settled(g, seen, u, g.Successors(u))
    ensures AllSettled(g, seen, done + {u})
  {
    forall d | d in done ensures Settled(g, seen, d, g.Nodes()) {
      assert Settled(g, before, d, g.Nodes());
    }
  }

  lemma NextLayer(seen: map<Agent, nat>, done: set<Agent>, queue: seq<Agent>, depth: nat)
    requires Frontier(seen.Keys, done, queue) && queue != [] && Layered(seen, done, queue, depth)
    ensures Layered(seen, done + {queue[0]}, queue[1..], seen[queue[0]])
  {
  }

  /** The breadth-first loop: what it has seen in the end is what walks reach, at their least length. */
  method DistancesFrom(g: RouteGraph, sources: seq<Agent>) returns (seen: map<Agent, nat>)
    ensures forall a :: a in seen <==> Reachable(g, false, Elements(sources), a)
    ensures forall a :: a in seen ==> Shortest(g, false, Elements(sources), a, seen[a])
  {
    hide Reachable, Shortest, ReachIn, Settled, Layered;
    var queue;
    seen, queue := Seed(g, sources);
    ghost var from := Elements(sources);
    ghost var done: set<Agent> := {};
    ghost var level := 0;

    while queue != []
      invariant Frontier(seen.Keys, done, queue)
      invariant Witnessed(g, from, seen)
      invariant Layered(seen, done, queue, level)
      invariant AllSettled(g, seen, done)
      decreases from + g.Nodes() - done
    {
      var current := queue[0];
      Pop(seen.Keys, done, queue);
      NextLayer(seen, done, queue, level);
      ghost var before := seen;
      level := seen[current];
      seen, queue := Expand(g, from, current, seen, queue[1..], done + {current});
      StaysSettled(g, before, seen, done, current);
      done := done + {current};
    }
    ShortestOnceSettled(g, from, seen);
  }

  lemma ShortestOnceSettled(g: RouteGraph, sources: set<Agent>, seen: map<Agent, nat>)
    requires Witnessed(g, sources, seen)
    requires forall u :: u in seen ==> Settled(g, seen, u, g.Nodes())
    ensures forall a :: a in seen <==> Reachable(g, false, sources, a)
    ensures forall a :: a in seen ==> Shortest(g, false, sources, a, seen[a])
  {
    hide Walk;
    forall a, p | Walk(g, false, sources, a, p) ensures a in seen && seen[a] + 1 <= |p| {
      ClosedBoundsWalks(g, sources, seen, a, p);
    }
  }

  /** Every agent reachable without crossing a spawn edge, the sources included. */
  method ReachableFrom(g: RouteGraph, sources: seq<Agent>) returns (reached: set<Agent>)
    ensures forall a :: a in reached <==> Reachable(g, false, Elements(sources), a)
  {
    var distances := DistancesFrom(g, sources);
    reached := distances.Keys;
  }

  /** Looks along every edge out of `current`, spawn edges too. */
  method ExpandAll(g: RouteGraph, ghost sources: set<Agent>, current: Agent,
                   before: set<Agent>, waiting: seq<Agent>, ghost done: set<Agent>)
    returns (seen: set<Agent>, queue: seq<Agent>)
    requires current in before
    requires Frontier(before, done, waiting)
    requires forall a :: a in before ==> Reachable(g, true, sources, a)
    requires before <= sources + g.Nodes()
    ensures before + g.Successors(current) <= seen <= sources + g.Nodes()
    ensures Frontier(seen, done, queue)
    ensures forall a :: a in seen ==> Reachable(g, true, sources, a)
  {
    seen, queue := before, waiting;
    var rest := g.Successors(current);
    while rest != {}
      invariant rest <= g.Successors(current)
      invariant before + (g.Successors(current) - rest) <= seen <= sources + g.Nodes()
      invariant Frontier(seen, done, queue)
      invariant forall a :: a in seen ==> Reachable(g, true, sources, a)
    {
      var next :| next in rest;
      rest := rest - {next};
      if next !in seen {
        ghost var p :| Walk(g, true, sources, current, p);
        WalkExtends(g, true, sources, current, p, next);
        seen := seen + {next};
        queue := queue + [next];
      }
    }
  }

  ghost predicate Followed(g: RouteGraph, done: set<Agent>, seen: set<Agent>) {
    forall u, v :: u in done && g.Permits(u, v) ==> v in seen
  }

  /** Every agent a workflow starting at `sources` sets in motion, spawn edges crossed. */
  method WorkflowFromAll(g: RouteGraph, sources: seq<Agent>) returns (seen: set<Agent>)
    ensures forall a :: a in seen <==> Reachable(g, true, Elements(sources), a)
  {
    seen := Elements(sources);
    var queue := Distinct(sources);
    ghost var from := seen;
    ghost var done: set<Agent> := {};
    forall a | a in seen ensures Reachable(g, true, from, a) {
      assert Walk(g, true, from, a, [a]);
    }

    while queue != []
      invariant Frontier(seen, done, queue)
      invariant from <= seen <= from + g.Nodes()
      invariant forall a :: a in seen ==> Reachable(g, true, from, a)
      invariant Followed(g, done, seen)
      decreases from + g.Nodes() - done
    {
      var current := queue[0];
      Pop(seen, done, queue);
      done := done + {current};
      seen, queue := ExpandAll(g, from, current, seen, queue[1..], done);
    }

    forall a, p | Walk(g, true, from, a, p) ensures a in seen {
      ClosedHoldsWalks(g, true, from, seen, a, p);
    }
  }

  /** The members of `s`, each once. */
  function Distinct(s: seq<Agent>): (d: seq<Agent>)
    ensures forall a :: a in d <==> a in s
    ensures forall i, j :: 0 <= i < j < |d| ==> d[i] != d[j]
  {
    if s == [] then []
    else
      var rest := Distinct(s[..|s| - 1]);
      if s[|s| - 1] in rest then rest else rest + [s[|s| - 1]]
  }

  // ----- properties of reachability -----

  /** Reaching is transitive: what a reachable set reaches was already reachable. */
  lemma {:induction false} ReachableTransitive(
    g: RouteGraph, crossing: bool, sources: set<Agent>, middle: set<Agent>, a: Agent)
    requires forall m :: m in middle ==> Reachable(g, crossing, sources, m)
    requires Reachable(g, crossing, middle, a)
    ensures Reachable(g, crossing, sources, a)
  {
    var p :| Walk(g, crossing, middle, a, p);
    var q :| Walk(g, crossing, sources, p[0], q);
    var w := q + p[1..];
    forall i | 0 <= i < |w| - 1 ensures g.Step(crossing, w[i], w[i + 1]) {
      if i >= |q| - 1 {
        var j := i - (|q| - 1);
        assert w[i] == p[j] && w[i + 1] == p[j + 1];
      }
    }
    assert Walk(g, crossing, sources, a, w);
  }

  /** Barrier reachability is narrower than workflow membership: it never crosses a spawn edge. */
  lemma WithinIsInTheWorkflow(g: RouteGraph, sources: set<Agent>, a: Agent)
    requires Reachable(g, false, sources, a)
    ensures Reachable(g, true, sources, a)
  {
    var p :| Walk(g, false, sources, a, p);
    assert Walk(g, true, sources, a, p);
  }
}
