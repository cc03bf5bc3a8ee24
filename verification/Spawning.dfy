/** Chains that start chains, as the running Tower starts them: on fresh rails, with no generation to count. */
module Spawning {
  import opened Prelude
  import opened Routes
  import opened Graph
  import opened Rails

  /** The rails a chain starts on, by the agent it starts at. */
  type RailsOf = Agent -> Account

  /** An admitted run: its agent, its chain's account once it has been counted, and the hops it holds. */
  datatype Run = Run(agent: Agent, account: Account, hops: u32)

  /** Admitting a flight to `agent` on `account` makes the run `r`. */
  predicate Admitted(account: Account, hops: u32, agent: Agent, r: Run) {
    r.agent == agent && Admit(account, hops) == Ok((r.account, r.hops))
  }

  /** `r` opens a chain at `agent`. */
  predicate Starts(rails: RailsOf, agent: Agent, r: Run) {
    Admitted(rails(agent), rails(agent).maxHops, agent, r)
  }

  /** `r` sends along an edge and the flight becomes `next`: in a chain of its own, on its own rails and with
      all their hops, when the edge spawns; otherwise in the same chain, on what `r` holds. */
  predicate Causes(g: RouteGraph, rails: RailsOf, r: Run, next: Run) {
    && g.Permits(r.agent, next.agent)
    && if g.IsSpawn(r.agent, next.agent) then Starts(rails, next.agent, next)
       else Admitted(r.account, r.hops, next.agent, next)
  }

  ghost predicate CausalRuns(g: RouteGraph, rails: RailsOf, entry: Agent, path: seq<Run>) {
    && |path| > 0 && Starts(rails, entry, path[0])
    && forall i :: 0 <= i < |path| - 1 ==> Causes(g, rails, path[i], path[i + 1])
  }

  ghost predicate BoundedBy(g: RouteGraph, rails: RailsOf, entry: Agent, bound: nat) {
    forall path :: CausalRuns(g, rails, entry, path) ==> |path| <= bound
  }

  // ----- chain starts -----

  /** The most runs one after another that a chain's rails admit. */
  function Line(a: Account): nat {
    if a.FuelExhausted() then 0 else Max(0, Min(a.maxHops - 1, a.maxRuns - a.runs))
  }

  lemma LineIsAdmitted(a: Account, n: nat)
    ensures AdmitAll(a, a.maxHops, n).Ok? <==> n <= Line(a)
  {
    AdmitAllExactly(a, a.maxHops, n);
  }

  /** A chain that starts at `s` may start one at `v`: a run of it that its rails admit may spawn `v`. */
  ghost predicate Leads(g: RouteGraph, rails: RailsOf, s: Agent, v: Agent) {
    exists p :: LeadsBy(g, rails, s, v, p)
  }

  ghost predicate LeadsBy(g: RouteGraph, rails: RailsOf, s: Agent, v: Agent, p: seq<Agent>) {
    && |p| > 0 && Walk(g, false, {s}, p[|p| - 1], p) && AdmitAll(rails(s), rails(s).maxHops, |p|).Ok?
    && g.Permits(p[|p| - 1], v) && g.IsSpawn(p[|p| - 1], v)
  }

  /** Chain starts, each leading to the next. */
  ghost predicate StartPath(g: RouteGraph, rails: RailsOf, entry: Agent, q: seq<Agent>) {
    && |q| > 0 && q[0] == entry
    && forall i :: 0 <= i < |q| - 1 ==> Leads(g, rails, q[i], q[i + 1])
  }

  /** Some chain start comes round again, on some line of starts from `entry`. */
  ghost predicate Recurs(g: RouteGraph, rails: RailsOf, entry: Agent) {
    exists q :: StartPath(g, rails, entry, q) && Repeats(q)
  }

  predicate Repeats(q: seq<Agent>) {
    exists i, j :: 0 <= i < j < |q| && q[i] == q[j]
  }

  // ----- bounded, when none recurs -----

  /** `r` is the `n`th of a line of runs on the rails `s` opens. */
  predicate At(rails: RailsOf, s: Agent, n: nat, r: Run) {
    && 0 < n <= Line(rails(s))
    && r.account == rails(s).(runs := rails(s).runs + n) && r.hops == rails(s).maxHops - n
  }

  lemma AdmitsNext(rails: RailsOf, s: Agent, n: nat, r: Run, next: Run)
    requires At(rails, s, n, r) && Admitted(r.account, r.hops, next.agent, next)
    ensures At(rails, s, n + 1, next)
  {
  }

  lemma StartIsFirst(rails: RailsOf, s: Agent, r: Run)
    requires Starts(rails, s, r)
    ensures At(rails, s, 1, r)
  {
  }

  lemma AtIsAdmitted(rails: RailsOf, s: Agent, n: nat, r: Run, agent: Agent) returns (next: Run)
    requires At(rails, s, n, r) && n < Line(rails(s))
    ensures Admitted(r.account, r.hops, agent, next) && At(rails, s, n + 1, next)
  {
    next := Run(agent, r.account.(runs := r.account.runs + 1), r.hops - 1);
  }

  /** Where a causal path has got to: the chain starts it came through, the way it took from the last of them,
      and so how long it can be when no chain has a line of more than `most`. */
  lemma {:induction false} Traced(g: RouteGraph, rails: RailsOf, entry: Agent, path: seq<Run>, most: nat)
    returns (q: seq<Agent>, p: seq<Agent>)
    requires CausalRuns(g, rails, entry, path)
    requires forall s :: s in g.Nodes() + {entry} ==> Line(rails(s)) <= most
    ensures StartPath(g, rails, entry, q) && (forall s :: s in q ==> s in g.Nodes() + {entry})
    ensures |p| > 0 && Walk(g, false, {q[|q| - 1]}, path[|path| - 1].agent, p)
    ensures At(rails, q[|q| - 1], |p|, path[|path| - 1])
    ensures |path| <= (|q| - 1) * most + |p|
    decreases |path|
  {
    var r := path[|path| - 1];
    if |path| == 1 {
      StartIsFirst(rails, entry, r);
      return [entry], [entry];
    }
    var front := path[..|path| - 1];
    var before := front[|front| - 1];
    assert before == path[|path| - 2] && r == path[|path| - 2 + 1];
    assert CausalRuns(g, rails, entry, front);
    assert Causes(g, rails, before, r) && r.agent in g.Nodes();
    var starts, way := Traced(g, rails, entry, front, most);
    if g.IsSpawn(before.agent, r.agent) {
      StartIsFirst(rails, r.agent, r);
      q, p := starts + [r.agent], [r.agent];
      LineIsAdmitted(rails(starts[|starts| - 1]), |way|);
      assert LeadsBy(g, rails, starts[|starts| - 1], r.agent, way);
      StartPathGrows(g, rails, entry, starts, r.agent);
      assert |starts| * most == (|starts| - 1) * most + most;
    } else {
      AdmitsNext(rails, starts[|starts| - 1], |way|, before, r);
      WalkExtends(g, false, {starts[|starts| - 1]}, before.agent, way, r.agent);
      q, p := starts, way + [r.agent];
    }
  }

  lemma StartPathGrows(g: RouteGraph, rails: RailsOf, entry: Agent, q: seq<Agent>, v: Agent)
    requires StartPath(g, rails, entry, q) && Leads(g, rails, q[|q| - 1], v)
    ensures StartPath(g, rails, entry, q + [v])
  {
  }

  /** A sequence in which nothing comes twice is no longer than what it is drawn from. */
  lemma {:induction false} NoRepeatsIsShort(q: seq<Agent>, from: set<Agent>)
    requires !Repeats(q) && forall s :: s in q ==> s in from
    ensures |q| <= |from|
    decreases |q|
  {
    if q != [] {
      var last := q[|q| - 1];
      var front := q[..|q| - 1];
      assert last in q && last in from;
      forall s | s in front ensures s in from - {last} {
        var i :| 0 <= i < |front| && front[i] == s;
        assert q[i] == s && s in q;
      }
      assert forall i :: 0 <= i < |front| ==> front[i] == q[i];
      NoRepeatsIsShort(front, from - {last});
    }
  }

  lemma {:induction false} SomeLineIsLongest(rails: RailsOf, starts: set<Agent>) returns (most: nat)
    ensures forall s :: s in starts ==> Line(rails(s)) <= most
    decreases starts
  {
    most := 0;
    if starts != {} {
      var s :| s in starts;
      var rest := SomeLineIsLongest(rails, starts - {s});
      most := Max(rest, Line(rails(s)));
    }
  }

  lemma {:induction false} TimesGrows(a: nat, b: nat, n: nat)
    requires a <= b
    ensures a * n <= b * n
  {
    assert b * n == a * n + (b - a) * n;
  }

  // ----- unbounded, when one does -----

  /** A line of starts that comes back to where it was can be followed round again. */
  lemma RoundAgain(g: RouteGraph, rails: RailsOf, entry: Agent, q: seq<Agent>, i: nat)
    requires StartPath(g, rails, entry, q) && i + 1 < |q| && q[i] == q[|q| - 1]
    ensures StartPath(g, rails, entry, q + q[i + 1..])
  {
    var longer := q + q[i + 1..];
    forall k | 0 <= k < |longer| - 1 ensures Leads(g, rails, longer[k], longer[k + 1]) {
      if k >= |q| - 1 {
        var n := i + (k - (|q| - 1));
        assert longer[k] == q[n] && longer[k + 1] == q[n + 1];
        assert Leads(g, rails, q[n], q[n + 1]);
      }
    }
  }

  lemma {:induction false} AnyNumberOfStarts(g: RouteGraph, rails: RailsOf, entry: Agent, n: nat)
    returns (q: seq<Agent>, i: nat)
    requires Recurs(g, rails, entry)
    ensures StartPath(g, rails, entry, q) && i + 1 < |q| && q[i] == q[|q| - 1] && |q| > n
    decreases n
  {
    if n == 0 {
      var whole :| StartPath(g, rails, entry, whole) && Repeats(whole);
      var k, j :| 0 <= k < j < |whole| && whole[k] == whole[j];
      q, i := whole[..j + 1], k;
    } else {
      var shorter, at := AnyNumberOfStarts(g, rails, entry, n - 1);
      RoundAgain(g, rails, entry, shorter, at);
      q, i := shorter + shorter[at + 1..], at;
    }
  }

  /** A causal path goes on along a way its chain's rails admit. */
  lemma {:induction false} Follows(
      g: RouteGraph, rails: RailsOf, entry: Agent, path: seq<Run>, s: Agent, p: seq<Agent>, n: nat)
    returns (longer: seq<Run>)
    requires CausalRuns(g, rails, entry, path) && 0 < n <= |p| <= Line(rails(s))
    requires At(rails, s, n, path[|path| - 1]) && path[|path| - 1].agent == p[n - 1]
    requires forall i :: 0 <= i < |p| - 1 ==> g.Step(false, p[i], p[i + 1])
    ensures CausalRuns(g, rails, entry, longer) && |longer| >= |path|
    ensures longer[|longer| - 1].agent == p[|p| - 1]
    decreases |p| - n
  {
    longer := path;
    if n < |p| {
      var r := path[|path| - 1];
      var next := AtIsAdmitted(rails, s, n, r, p[n]);
      assert g.Step(false, p[n - 1], p[n - 1 + 1]);
      PathGrows(g, rails, entry, path, next);
      longer := Follows(g, rails, entry, path + [next], s, p, n + 1);
    }
  }

  lemma PathGrows(g: RouteGraph, rails: RailsOf, entry: Agent, path: seq<Run>, next: Run)
    requires CausalRuns(g, rails, entry, path) && Causes(g, rails, path[|path| - 1], next)
    ensures CausalRuns(g, rails, entry, path + [next])
  {
  }

  /** The first run on the rails of `s`, which admit one. */
  function FirstRun(rails: RailsOf, s: Agent): Run
    requires Line(rails(s)) > 0
  {
    Run(s, rails(s).(runs := rails(s).runs + 1), rails(s).maxHops - 1)
  }

  /** A line of starts is walked by a causal path with a run at least for each, but the last if its own rails
      admit none. */
  lemma {:induction false} StartsAreRun(g: RouteGraph, rails: RailsOf, entry: Agent, q: seq<Agent>)
    returns (path: seq<Run>)
    requires StartPath(g, rails, entry, q) && Line(rails(q[|q| - 1])) > 0
    ensures CausalRuns(g, rails, entry, path) && |path| >= |q|
    ensures path[|path| - 1] == FirstRun(rails, q[|q| - 1])
    decreases |q|
  {
    var v := q[|q| - 1];
    if |q| == 1 {
      return [FirstRun(rails, v)];
    }
    var front := q[..|q| - 1];
    var s := front[|front| - 1];
    assert s == q[|q| - 2] && v == q[|q| - 2 + 1] && Leads(g, rails, s, v);
    var p :| LeadsBy(g, rails, s, v, p);
    LineIsAdmitted(rails(s), |p|);
    var before := StartsAreRun(g, rails, entry, front);
    var along := Follows(g, rails, entry, before, s, p, 1);
    PathGrows(g, rails, entry, along, FirstRun(rails, v));
    path := along + [FirstRun(rails, v)];
  }

  // ----- the exact bound -----

  /** What a trigger sets in motion, the rails being all that stops it, is bounded exactly when no chain start
      it leads to comes round again: the Tower counts no generations, and every chain starts with all its hops,
      so nothing else ends a line of chains. On the graph without the edges a rendezvous can hold up, that is what
      runs. */
  lemma BoundedExactlyWhenNoStartRecurs(g: RouteGraph, rails: RailsOf, entry: Agent)
    ensures (exists bound: nat :: BoundedBy(g, rails, entry, bound)) <==> !Recurs(g, rails, entry)
  {
    hide BoundedBy, Recurs;
    if Recurs(g, rails, entry) {
      forall bound: nat ensures !BoundedBy(g, rails, entry, bound) {
        Unbounded(g, rails, entry, bound);
      }
    } else {
      var bound := SomeBound(g, rails, entry);
    }
  }

  lemma SomeBound(g: RouteGraph, rails: RailsOf, entry: Agent) returns (bound: nat)
    requires !Recurs(g, rails, entry)
    ensures BoundedBy(g, rails, entry, bound)
  {
    hide CausalRuns, Recurs, Line;
    var most := SomeLineIsLongest(rails, g.Nodes() + {entry});
    bound := |g.Nodes() + {entry}| * most;
    forall path | CausalRuns(g, rails, entry, path) ensures |path| <= bound {
      NoLonger(g, rails, entry, path, most);
    }
  }

  lemma NoLonger(g: RouteGraph, rails: RailsOf, entry: Agent, path: seq<Run>, most: nat)
    requires CausalRuns(g, rails, entry, path) && !Recurs(g, rails, entry)
    requires forall s :: s in g.Nodes() + {entry} ==> Line(rails(s)) <= most
    ensures |path| <= |g.Nodes() + {entry}| * most
  {
    hide CausalRuns, StartPath, Line, Repeats;
    var starts := g.Nodes() + {entry};
    var q, p := Traced(g, rails, entry, path, most);
    NoRepeatsIsShort(q, starts);
    assert q[|q| - 1] in q && |p| <= most;
    assert (|q| - 1) * most + most == |q| * most;
    TimesGrows(|q|, |starts|, most);
  }

  lemma Unbounded(g: RouteGraph, rails: RailsOf, entry: Agent, bound: nat)
    requires Recurs(g, rails, entry)
    ensures !BoundedBy(g, rails, entry, bound)
  {
    var q, i := AnyNumberOfStarts(g, rails, entry, bound);
    assert Leads(g, rails, q[i], q[i + 1]);
    var p :| LeadsBy(g, rails, q[i], q[i + 1], p);
    LineIsAdmitted(rails(q[i]), |p|);
    var path := StartsAreRun(g, rails, entry, q);
    assert CausalRuns(g, rails, entry, path) && |path| > bound;
  }

  /** One agent, and an edge on which it spawns itself. */
  function SelfSpawning(agent: Agent): RouteGraph {
    RouteGraph(map[agent := {agent}], map[agent := {agent}], map[])
  }

  /** On any rails that admit a single run, it goes on for ever. */
  lemma SelfSpawningNeverEnds(rails: RailsOf, agent: Agent)
    requires Line(rails(agent)) > 0
    ensures forall bound: nat :: !BoundedBy(SelfSpawning(agent), rails, agent, bound)
  {
    var g := SelfSpawning(agent);
    LineIsAdmitted(rails(agent), 1);
    assert Walk(g, false, {agent}, agent, [agent]);
    assert LeadsBy(g, rails, agent, agent, [agent]);
    assert StartPath(g, rails, agent, [agent, agent]) && [agent, agent][0] == [agent, agent][1];
    assert Repeats([agent, agent]);
    BoundedExactlyWhenNoStartRecurs(g, rails, agent);
  }
}
