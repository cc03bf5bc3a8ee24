/** What the dispatcher gives up when a drain of the queue ends, against what could still have released. */
module Abandoning {
  import opened Prelude
  import opened Routes
  import opened Graph
  import opened Barriers
  import opened Chains
  import opened Waking

  // ----- what the dispatcher gives up -----

  /** A barrier the dispatcher gives up could nevertheless have released exactly when everybody it missed (under
      `any`, somebody) could still come. That is whatever set `live` it judged by: one with other chains' agents
      in it, or without the chain's own runs that were cut off and flights it has not read. */
  lemma DispatcherAbandonsExactlyUnless(g: RouteGraph, s: Chain, agent: Agent, live: set<Agent>)
    requires agent in g.joins && Consistent(g, s)
    requires !BarrierOf(g, s, agent).released && !BarrierOf(g, s, agent).Satisfiable(g, live)
    ensures CanRelease(g, s, agent) <==> Heard(g, s, agent)
  {
    ReleasesExactlyWhenHeard(g, s, agent);
  }

  /** Whoever can be woken is within reach of the chain's own work, and whoever may be sent straight to is. */
  lemma WakeableIsBetween(g: RouteGraph, s: Chain, agent: Agent)
    requires Consistent(g, s)
    ensures Wakeable(g, s, agent) ==> Reachable(g, false, s.Own(), agent)
    ensures (exists work :: work in s.Held() && work.To() == agent && !Awaited(g, work)) ==> Wakeable(g, s, agent)
  {
    hide Unmet, Consistent, Chain.Held;
    ReachIsClosed(g, s, s.Own());
    if work :| work in s.Held() && work.To() == agent && !Awaited(g, work) {
      forall closed | Closed(g, s, closed) ensures agent in closed {
        assert agent !in closed ==> ShutOut(g, s, closed, agent);
      }
    }
  }

  /** Whoever a way on which no flight waits for another leads to from the wakeable is wakeable too. */
  lemma {:induction false} WakeableAlong(g: RouteGraph, s: Chain, live: set<Agent>, agent: Agent, p: seq<Agent>)
    requires forall a :: a in live ==> Wakeable(g, s, a)
    requires Walk(g.Unheld(), false, live, agent, p)
    ensures Wakeable(g, s, agent)
    decreases |p|
  {
    hide Wakeable;
    if |p| > 1 {
      WalkShortens(g.Unheld(), false, live, agent, p);
      UnheldSteps(g, p[|p| - 2], agent);
      WakeableAlong(g, s, live, p[|p| - 2], p[..|p| - 1]);
      WakesNext(g, s, p[|p| - 2], agent);
    }
  }

  lemma WakesNext(g: RouteGraph, s: Chain, from: Agent, to: Agent)
    requires Wakeable(g, s, from) && g.FreeStep(from, to)
    ensures Wakeable(g, s, to)
  {
    hide Unmet;
    forall closed | Closed(g, s, closed) ensures to in closed {
      assert to !in closed ==> ShutOut(g, s, closed, to);
    }
  }

  /** Keeping a barrier is not idle either. When it is said to be satisfiable from agents that work goes straight to,
      along ways on which no flight waits for another, and whom it misses may send to its agent, some steps do
      release it. */
  lemma SatisfiableCanRelease(g: RouteGraph, s: Chain, agent: Agent, live: set<Agent>)
    requires agent in g.joins && Consistent(g, s)
    requires !BarrierOf(g, s, agent).released && BarrierOf(g, s, agent).Missing() != {}
    requires forall a :: a in live ==> exists work :: work in s.Held() && work.To() == a && !Awaited(g, work)
    requires forall m :: m in BarrierOf(g, s, agent).Missing() ==> g.Step(false, m, agent)
    ensures BarrierOf(g, s, agent).Satisfiable(g.Unheld(), live) ==> CanRelease(g, s, agent)
  {
    hide Consistent, Wakeable, OnItsWay, Chain.Held, Walk, Awaited;
    forall a | a in live ensures Wakeable(g, s, a) {
      WakeableIsBetween(g, s, a);
    }
    forall m | Reachable(g.Unheld(), false, live, m) ensures Wakeable(g, s, m) {
      var p :| Walk(g.Unheld(), false, live, m, p);
      WakeableAlong(g, s, live, m, p);
    }
    BarrierIsSound(g, s, agent);
    ReleasesExactlyWhenHeard(g, s, agent);
  }

  /** So under `all` it is safe to give a barrier up over one upstream out of that reach, with no flight on its way,
      whatever else can still run. */
  lemma DispatcherAbandonsSafely(g: RouteGraph, s: Chain, agent: Agent, m: Agent)
    requires agent in g.joins && Consistent(g, s)
    requires g.joins[agent].join.All? && m in BarrierOf(g, s, agent).Missing()
    requires !Reachable(g, false, s.Own(), m) && !OnItsWay(s, m, agent)
    ensures !CanRelease(g, s, agent)
  {
    hide OnItsWay, Reachable;
    ReachIsClosed(g, s, s.Own());
    NeverReleases(g, s, agent, {m}, Reach(g, s.Own()));
  }

  /** Narrowing a chain can leave a join naming an upstream that may no longer send to its agent. Such
      a barrier never releases under `all`, whoever runs. */
  lemma UnsentUpstreamNeverReleases(g: RouteGraph, s: Chain, agent: Agent, m: Agent)
    requires agent in g.joins && Consistent(g, s)
    requires g.joins[agent].join.All? && m in BarrierOf(g, s, agent).Missing()
    requires !g.Step(false, m, agent) && !OnItsWay(s, m, agent)
    ensures !CanRelease(g, s, agent)
  {
    hide OnItsWay, Grown, Closed;
    var all := EverybodyWakes(g, s);
    NeverReleases(g, s, agent, {m}, Awake(all));
  }

  // ----- barriers the dispatcher gives up too soon -----

  const UPSTREAMS: set<Agent> := {"tester", "linter", "writer"}

  const LINTED := Flight("1", FromAgent("linter"), "publisher", "approved")

  const WRITTEN := Flight("2", FromAgent("writer"), "publisher", "done")

  const VERDICT := Queued(Flight("3", FromAgent("tester"), "publisher", "passed"), false)

  const LINT := Queued(Flight("4", Human, "linter", "look at this"), false)

  const TEST := Queued(Flight("5", Human, "tester", "try this"), false)

  function PublishGraph(): RouteGraph {
    RouteGraph(
      map["tester" := {"publisher"}, "linter" := {"publisher"}, "writer" := {"publisher"}], map[],
      map["publisher" := JoinSpec(UPSTREAMS, Join.All, None)])
  }

  function Reported(parked: map<Agent, Flight>): map<Agent, State> {
    map["publisher" := State(UPSTREAMS, Join.All, parked, parked.Keys, false)]
  }

  /** The others have delivered, the tester has sent its verdict and finished, and nothing is running. */
  function PublishChain(): Chain {
    Chain(multiset{}, multiset{}, multiset{VERDICT}, Reported(map["linter" := LINTED, "writer" := WRITTEN]))
  }

  /** As it may stand when the Tower stops: the writer has delivered, the tester's verdict is waiting, and so
      is work for the linter. */
  function StoppedChain(): Chain {
    Chain(multiset{}, multiset{}, multiset{VERDICT, LINT}, Reported(map["writer" := WRITTEN]))
  }

  /** The others have delivered, and the tester is at work. */
  function TestedChain(): Chain {
    Chain(multiset{TEST}, multiset{}, multiset{}, Reported(map["linter" := LINTED, "writer" := WRITTEN]))
  }

  /** The tester's run has been cut off for an install. */
  function CutChain(): Chain {
    Chain(multiset{}, multiset{TEST}, multiset{}, Reported(map["linter" := LINTED, "writer" := WRITTEN]))
  }

  lemma UpstreamsDiffer()
    ensures "tester" != "linter" && "tester" != "writer" && "linter" != "writer"
    ensures "publisher" !in UPSTREAMS
  {
    assert "tester"[0] != "linter"[0] && "tester"[0] != "writer"[0] && "linter"[0] != "writer"[0];
    assert "publisher"[0] != "tester"[0] && "publisher"[0] != "linter"[0] && "publisher"[0] != "writer"[0];
  }

  lemma OwnIsWhomWorkIsFor(s: Chain, work: Queued, other: Queued)
    requires s.Held() == multiset{work} || s.Held() == multiset{work, other}
    ensures s.Own() == if s.Held() == multiset{work} then {work.To()} else {work.To(), other.To()}
  {
    assert work in s.Held();
    assert s.Held() != multiset{work} ==> other in s.Held();
    hide Chain.Held;
    assert forall w :: w in s.Held() ==> w == work || (w == other && s.Held() != multiset{work});
  }

  lemma PublishConsistent(s: Chain, parked: map<Agent, Flight>)
    requires s.barriers == Reported(parked) && parked.Keys < UPSTREAMS
    ensures Consistent(PublishGraph(), s)
    ensures var b := BarrierOf(PublishGraph(), s, "publisher");
            b.join.All? && !b.released && b.Missing() == UPSTREAMS - parked.Keys
  {
    var m :| m in UPSTREAMS && m !in parked;
    assert m in BarrierOf(PublishGraph(), s, "publisher").Missing();
  }

  /** An upstream runs only if it is sent work. */
  lemma UpstreamIsNotReached(live: set<Agent>, m: Agent)
    requires m in UPSTREAMS && m !in live
    ensures !Reachable(PublishGraph(), false, live, m)
  {
    UpstreamsDiffer();
    forall p ensures !Walk(PublishGraph(), false, live, m, p) {
      if Walk(PublishGraph(), false, live, m, p) {
        ClosedHoldsWalks(PublishGraph(), false, live, live + {"publisher"}, m, p);
        assert false;
      }
    }
  }

  /** The dispatcher's test gives up a barrier whose last verdict is waiting in the queue, and that
      verdict would have released it: the set holds whom the flight is for, and not who sent it. */
  lemma WaitingVerdictIsForgotten()
    ensures PublishChain().Own() == {"publisher"}
    ensures !BarrierOf(PublishGraph(), PublishChain(), "publisher").Satisfiable(PublishGraph(), {"publisher"})
    ensures CanRelease(PublishGraph(), PublishChain(), "publisher")
  {
    hide CanRelease, Wakeable, Reachable, Consistent;
    var g, s := PublishGraph(), PublishChain();
    UpstreamsDiffer();
    assert s.Held() == multiset{VERDICT};
    OwnIsWhomWorkIsFor(s, VERDICT, VERDICT);
    PublishConsistent(s, map["linter" := LINTED, "writer" := WRITTEN]);
    UpstreamIsNotReached({"publisher"}, "tester");
    assert VERDICT in s.Held() && VERDICT.Bears("tester", "publisher") && OnItsWay(s, "tester", "publisher");
    assert BarrierOf(g, s, "publisher").Missing() == {"tester"};
    DispatcherAbandonsExactlyUnless(g, s, "publisher", {"publisher"});
  }

  /** That barrier is given up as well though one upstream of it is counted, and both would have come. */
  lemma LiveUpstreamDoesNotSaveIt()
    ensures StoppedChain().Own() == {"publisher", "linter"}
    ensures var s := StoppedChain();
            !BarrierOf(PublishGraph(), s, "publisher").Satisfiable(PublishGraph(), {"publisher", "linter"})
    ensures CanRelease(PublishGraph(), StoppedChain(), "publisher")
  {
    hide CanRelease, Wakeable, Reachable, Consistent;
    var g, s := PublishGraph(), StoppedChain();
    UpstreamsDiffer();
    assert s.Held() == multiset{VERDICT, LINT} && VERDICT.To() != LINT.To();
    OwnIsWhomWorkIsFor(s, VERDICT, LINT);
    PublishConsistent(s, map["writer" := WRITTEN]);
    UpstreamIsNotReached({"publisher", "linter"}, "tester");
    assert VERDICT in s.Held() && VERDICT.Bears("tester", "publisher") && OnItsWay(s, "tester", "publisher");
    assert LINT in s.Held() && LINT.To() == "linter" && !Awaited(g, LINT);
    WakeableIsBetween(g, s, "linter");
    assert BarrierOf(g, s, "publisher").Missing() == {"tester", "linter"};
    DispatcherAbandonsExactlyUnless(g, s, "publisher", {"publisher", "linter"});
  }

  lemma CutWhileTesting()
    ensures var g, s := PublishGraph(), TestedChain();
            Enabled(g, s, CutOff(TEST)) && Next(g, s, CutOff(TEST)) == CutChain()
            && Enabled(g, CutChain(), Abandon("publisher"))
  {
  }

  /** A run that is cut off is counted nowhere, until a failed install settles it. Nothing is counted then, its
      flight is not sent yet, and the barrier is given up: had it not been, the restarted run would have released it,
      and now nothing does. */
  lemma CutRunIsForgotten()
    ensures Leads(PublishGraph(), TestedChain(), CutChain())
    ensures CutChain().running == CutChain().queue == multiset{} && !OnItsWay(CutChain(), "tester", "publisher")
    ensures !BarrierOf(PublishGraph(), CutChain(), "publisher").Satisfiable(PublishGraph(), {})
    ensures CanRelease(PublishGraph(), CutChain(), "publisher")
    ensures !CanRelease(PublishGraph(), CutChain().(barriers := map[]), "publisher")
  {
    hide CanRelease, Wakeable, Reachable, Consistent, Enabled, Next, Led;
    var g, s := PublishGraph(), CutChain();
    CutWhileTesting();
    LedOne(g, TestedChain(), CutOff(TEST));
    UpstreamsDiffer();
    PublishConsistent(s, map["linter" := LINTED, "writer" := WRITTEN]);
    UpstreamIsNotReached({}, "tester");
    assert TEST in s.Held() && TEST.To() == "tester" && !Awaited(g, TEST);
    WakeableIsBetween(g, s, "tester");
    assert BarrierOf(g, s, "publisher").Missing() == {"tester"};
    DispatcherAbandonsExactlyUnless(g, s, "publisher", {});
    GivenUpForGood();
  }

  lemma GivenUpForGood()
    ensures !CanRelease(PublishGraph(), CutChain().(barriers := map[]), "publisher")
  {
    hide CanRelease, Reachable;
    var g, s := PublishGraph(), CutChain().(barriers := map[]);
    UpstreamsDiffer();
    assert s.Held() == multiset{TEST};
    OwnIsWhomWorkIsFor(s, TEST, TEST);
    UpstreamIsNotReached({"tester"}, "linter");
    assert BarrierOf(g, s, "publisher") == Fresh(JoinSpec(UPSTREAMS, Join.All, None));
    DispatcherAbandonsSafely(g, s, "publisher", "linter");
  }
}
