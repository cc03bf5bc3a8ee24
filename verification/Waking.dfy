/** Who can still run in a chain, and which barriers can still release: one run of the chain wakes everybody whom
    any run of it can wake, and keeps what every barrier needs. */
module Waking {
  import opened Prelude
  import opened Routes
  import opened Graph
  import opened Barriers
  import opened Chains

  // ----- waking one more agent -----

  /** `after` is as far as `s`, but for what concerns `agent`. */
  ghost predicate Towards(g: RouteGraph, s: Chain, after: Chain, agent: Agent) {
    && Consistent(g, after) && Leads(g, s, after)
    && (forall work: Queued :: work.To() != agent ==>
          after.running[work] == s.running[work] && after.Held()[work] == s.Held()[work])
    && (forall a :: a in g.joins && a != agent ==> BarrierOf(g, after, a) == BarrierOf(g, s, a))
  }

  lemma TowardsThen(g: RouteGraph, s: Chain, mid: Chain, after: Chain, agent: Agent)
    requires Towards(g, s, mid, agent) && Towards(g, mid, after, agent)
    ensures Towards(g, s, after, agent)
  {
    hide Leads, BarrierOf, Consistent;
    LeadsThen(g, s, mid, after);
  }

  lemma StepTowards(g: RouteGraph, s: Chain, step: Step)
    requires Consistent(g, s) && Enabled(g, s, step)
    ensures Towards(g, s, Next(g, s, step), About(step))
  {
    hide Next, Enabled, BarrierOf, Leads, Consistent;
    LedOne(g, s, step);
    StepsStayConsistent(g, s, step);
    forall work: Queued | work.To() != About(step)
      ensures Next(g, s, step).running[work] == s.running[work] && Next(g, s, step).Held()[work] == s.Held()[work]
    {
      StepCounts(g, s, step, work);
    }
    forall a | a in g.joins && a != About(step) ensures BarrierOf(g, Next(g, s, step), a) == BarrierOf(g, s, a) {
      BarrierMoves(g, s, step, a);
    }
  }

  /** Whatever work waits can be brought to the queue. */
  lemma ToQueue(g: RouteGraph, s: Chain, work: Queued) returns (ready: Chain)
    requires Consistent(g, s) && work in s.Held()
    ensures Consistent(g, ready) && Towards(g, s, ready, work.To()) && work in ready.queue
    ensures ready.Held() == s.Held() && ready.barriers == s.barriers
    ensures work !in s.running ==> ready.running == s.running
  {
    hide Towards, Consistent;
    if work in s.queue {
      ready := s;
      SameTowards(g, s, work.To());
    } else {
      var step := if work in s.cut then Settle(work, true) else Restart(work);
      ready := Next(g, s, step);
      StepTowards(g, s, step);
      StepsStayConsistent(g, s, step);
    }
  }

  lemma SameTowards(g: RouteGraph, s: Chain, agent: Agent)
    requires Consistent(g, s)
    ensures Towards(g, s, s, agent)
  {
    assert Led(g, s, [], s);
  }

  /** What has to be on its way for a barrier to release for certain. */
  ghost predicate Enough(g: RouteGraph, s: Chain, agent: Agent)
    requires agent in g.joins
  {
    var b := BarrierOf(g, s, agent);
    match g.joins[agent].join
    case All => b.Missing() != {} && forall m :: m in b.Missing() ==> OnItsWay(s, m, agent)
    case Any => exists m :: m in b.Missing() && OnItsWay(s, m, agent) && (b.released ==> m in b.seen)
  }

  lemma DeliverMissing(spec: JoinSpec, b: State, f: Flight)
    requires Sound(spec, b) && b.Names(f) && f.Sender().value in b.Missing()
    requires spec.join.Any? && b.released ==> f.Sender().value in b.seen
    ensures var (after, outcome) := b.Delivered(f);
            if outcome.Ready? then f.Sender().value in outcome.flights
            else outcome.Parked? && spec.join.All? && after.Missing() != {}
                 && after.Missing() == b.Missing() - {f.Sender().value}
                 && |after.Missing()| < |b.Missing()|
  {
    var m := f.Sender().value;
    assert |b.Missing()| == |b.Missing() - {m}| + 1;
    if spec.join.All? {
      var full := b.parked[m := f];
      FullSet(full.Keys, spec.upstreams);
      assert |full| == |full.Keys|;
      assert spec.upstreams - full.Keys == b.Missing() - {m};
    }
  }

  lemma OthersStayOnTheirWay(g: RouteGraph, s: Chain, take: Step, m: Agent)
    requires take.Take? && !take.admitted && Enabled(g, s, take) && take.work.flight.Sender() == Some(m)
    ensures forall k, agent :: k != m && OnItsWay(s, k, agent) ==> OnItsWay(Next(g, s, take), k, agent)
  {
    hide State.Delivered, Folds;
    assert Next(g, s, take).Held() == s.Held() - multiset{take.work};
    forall k, agent | k != m && OnItsWay(s, k, agent) ensures OnItsWay(Next(g, s, take), k, agent) {
      var other :| other in s.Held() && other.Bears(k, agent);
      assert other in Next(g, s, take).Held();
    }
  }

  lemma SameBarrier(g: RouteGraph, s: Chain, after: Chain, agent: Agent)
    requires agent in g.joins && after.barriers == s.barriers
    ensures BarrierOf(g, after, agent) == BarrierOf(g, s, agent)
  {
  }

  /** A delivery that starts nothing: parked, or too late. */
  lemma DeliversOne(g: RouteGraph, s: Chain, work: Queued, m: Agent) returns (after: Chain)
    requires Consistent(g, s) && work in s.queue && work.Bears(m, work.To()) && Meets(g, work)
    requires var outcome := BarrierOf(g, s, work.To()).Delivered(work.flight).1; outcome.Parked? || outcome.Late?
    ensures Consistent(g, after) && Towards(g, s, after, work.To()) && after.running == s.running
    ensures Enabled(g, s, Take(work, false, work)) && after == Next(g, s, Take(work, false, work))
    ensures after.Held() == s.Held() - multiset{work}
    ensures BarrierOf(g, after, work.To()) == BarrierOf(g, s, work.To()).Delivered(work.flight).0
    ensures forall k :: k != m && OnItsWay(s, k, work.To()) ==> OnItsWay(after, k, work.To())
  {
    hide State.Delivered, Towards, Sound, BarrierOf, Consistent, Folds;
    var take := Take(work, false, work);
    after := Next(g, s, take);
    StepTowards(g, s, take);
    StepsStayConsistent(g, s, take);
    BarrierMoves(g, s, take, work.To());
    OthersStayOnTheirWay(g, s, take, m);
  }

  /** What delivering `work` next would do. */
  ghost predicate ReleasesNext(g: RouteGraph, s: Chain, work: Queued, agent: Agent) {
    work in s.queue && Meets(g, work) && work.To() == agent
    && BarrierOf(g, s, agent).Delivered(work.flight).1.Ready?
  }

  /** One of those flights, brought to the queue: it releases the barrier, or leaves one fewer missing. */
  lemma NextOfEnough(g: RouteGraph, s: Chain, agent: Agent) returns (ready: Chain, work: Queued, m: Agent)
    requires agent in g.joins && Consistent(g, s) && Enough(g, s, agent)
    ensures Consistent(g, ready) && Towards(g, s, ready, agent) && ready.Held() == s.Held()
    ensures BarrierOf(g, ready, agent) == BarrierOf(g, s, agent) && Meets(g, work)
    ensures work in ready.queue && work.Bears(m, agent) && m in BarrierOf(g, s, agent).Missing()
    ensures BarrierOf(g, s, agent).Names(work.flight)
    ensures g.joins[agent].join.Any? && BarrierOf(g, s, agent).released ==> m in BarrierOf(g, s, agent).seen
  {
    hide State.Delivered, Towards, Sound, BarrierOf, Consistent, Chain.Held;
    var b := BarrierOf(g, s, agent);
    m :| m in b.Missing() && OnItsWay(s, m, agent) && (g.joins[agent].join.Any? && b.released ==> m in b.seen);
    work :| work in s.Held() && work.Bears(m, agent);
    ready := ToQueue(g, s, work);
    SameBarrier(g, s, ready, agent);
  }

  /** When enough is on its way, it can be delivered up to the flight that releases the barrier. */
  lemma {:induction false} EnoughArrives(g: RouteGraph, s: Chain, agent: Agent) returns (after: Chain, work: Queued)
    requires agent in g.joins && Consistent(g, s) && Enough(g, s, agent)
    ensures Towards(g, s, after, agent) && ReleasesNext(g, after, work, agent)
    decreases |BarrierOf(g, s, agent).Missing()|
  {
    hide State.Delivered, Towards, Sound, BarrierOf, Consistent, Chain.Held, OnItsWay;
    var b := BarrierOf(g, s, agent);
    var m;
    after, work, m := NextOfEnough(g, s, agent);
    BarrierIsSound(g, s, agent);
    DeliverMissing(g.joins[agent], b, work.flight);
    if !b.Delivered(work.flight).1.Ready? {
      var next := DeliversOne(g, after, work, m);
      HeldIsComing(s, after);
      TowardsThen(g, s, after, next, agent);
      after, work := EnoughArrives(g, next, agent);
      TowardsThen(g, s, next, after, agent);
    }
  }

  lemma HeldIsComing(s: Chain, after: Chain)
    requires after.Held() == s.Held()
    ensures forall m, agent :: OnItsWay(after, m, agent) <==> OnItsWay(s, m, agent)
  {
  }

  function Folded(b: State, work: Queued): Queued {
    match b.Delivered(work.flight).1
    case Ready(flights) => Queued(work.flight, |flights| > 1)
    case _ => work
  }

  lemma ReleaseFolds(g: RouteGraph, s: Chain, work: Queued, agent: Agent, admitted: bool)
    requires ReleasesNext(g, s, work, agent)
    ensures var take := Take(work, admitted, Folded(BarrierOf(g, s, agent), work));
            Enabled(g, s, take) && Releases(g, s, take, agent)
  {
  }

  lemma WillRelease(g: RouteGraph, s: Chain, mid: Chain, work: Queued, agent: Agent)
    requires Leads(g, s, mid) && ReleasesNext(g, mid, work, agent)
    ensures CanRelease(g, s, agent)
  {
    hide Leads, Enabled, Releases, Next;
    ReleaseFolds(g, mid, work, agent, false);
    ReleasesNow(g, mid, Take(work, false, Folded(BarrierOf(g, mid, agent), work)), agent);
    LeadsReleases(g, s, mid, agent);
  }

  /** When enough is already on its way, delivering it releases the barrier. */
  lemma EnoughReleases(g: RouteGraph, s: Chain, agent: Agent)
    requires agent in g.joins && Consistent(g, s) && Enough(g, s, agent)
    ensures CanRelease(g, s, agent)
  {
    var mid, work := EnoughArrives(g, s, agent);
    WillRelease(g, s, mid, work, agent);
  }

  /** The barrier guarding `agent` is as it was, and what was on its way there still is. */
  ghost predicate Spared(g: RouteGraph, s: Chain, after: Chain, agent: Agent)
    requires agent in g.joins
  {
    && BarrierOf(g, after, agent) == BarrierOf(g, s, agent)
    && forall m :: OnItsWay(s, m, agent) ==> OnItsWay(after, m, agent)
  }

  /** `agent` has been woken, and nobody else is the worse for it. */
  ghost predicate Woken(g: RouteGraph, s: Chain, after: Chain, agent: Agent) {
    && Towards(g, s, after, agent) && after.Running() == s.Running() + {agent}
    && (agent in g.joins ==> CanRelease(g, s, agent) || Spared(g, s, after, agent))
  }

  lemma NowRunning(g: RouteGraph, s: Chain, after: Chain, agent: Agent)
    requires Towards(g, s, after, agent) && agent in after.Running()
    ensures after.Running() == s.Running() + {agent}
  {
    hide Leads, BarrierOf, Consistent;
    forall a | a != agent ensures a in after.Running() <==> a in s.Running() {
      if work :| work in s.running && work.To() == a {
        assert after.running[work] == s.running[work];
      }
      if work :| work in after.running && work.To() == a {
        assert after.running[work] == s.running[work];
      }
    }
  }

  /** A release wakes its agent. */
  lemma WakesByRelease(g: RouteGraph, s: Chain, mid: Chain, work: Queued, agent: Agent) returns (after: Chain)
    requires Consistent(g, mid) && Towards(g, s, mid, agent) && ReleasesNext(g, mid, work, agent)
    ensures Woken(g, s, after, agent)
    ensures exists take :: Enabled(g, mid, take) && take.Take? && take.admitted && after == Next(g, mid, take)
  {
    hide Leads, Enabled, Releases, Next;
    ReleaseFolds(g, mid, work, agent, true);
    var take := Take(work, true, Folded(BarrierOf(g, mid, agent), work));
    after := Next(g, mid, take);
    StepTowards(g, mid, take);
    TowardsThen(g, s, mid, after, agent);
    AdmittedRuns(g, mid, take);
    NowRunning(g, s, after, agent);
    WillRelease(g, s, mid, work, agent);
  }

  lemma AdmittedRuns(g: RouteGraph, s: Chain, take: Step)
    requires take.Take? && take.admitted && Enabled(g, s, take)
    ensures take.kept in Next(g, s, take).running && take.kept.To() == take.work.To()
    ensures take.work.To() in Next(g, s, take).Running()
  {
    hide State.Delivered;
  }

  lemma TakesDirectly(g: RouteGraph, s: Chain, work: Queued)
    requires Consistent(g, s) && work in s.queue && !Awaited(g, work)
    ensures var take := Take(work, true, work);
            Enabled(g, s, take)
            && Next(g, s, take).running == s.running + multiset{work} && Next(g, s, take).Held() == s.Held()
            && (work.To() in g.joins ==> BarrierOf(g, Next(g, s, take), work.To()) == BarrierOf(g, s, work.To()))
  {
    AwaitedMeets(g, s, work);
  }

  /** Work no barrier waits for wakes its agent, and changes nothing else. */
  lemma WakesDirectly(g: RouteGraph, s: Chain, work: Queued) returns (after: Chain)
    requires Consistent(g, s) && work in s.queue && !Awaited(g, work)
    ensures Woken(g, s, after, work.To())
    ensures Enabled(g, s, Take(work, true, work)) && after == Next(g, s, Take(work, true, work))
  {
    hide Leads, Enabled, Next, BarrierOf, Consistent, Chain.Held;
    var take := Take(work, true, work);
    TakesDirectly(g, s, work);
    after := Next(g, s, take);
    StepTowards(g, s, take);
    AdmittedRuns(g, s, take);
    NowRunning(g, s, after, work.To());
    HeldIsComing(s, after);
  }

  function FlightTo(run: Queued, to: Agent): Flight {
    Flight("", FromAgent(run.To()), to, "")
  }

  lemma Sends(g: RouteGraph, s: Chain, run: Queued, to: Agent) returns (sent: Chain, work: Queued)
    requires Consistent(g, s) && run in s.running && g.Step(false, run.To(), to)
    ensures work == Queued(FlightTo(run, to), false) && work in sent.queue && work.Bears(run.To(), to)
    ensures Consistent(g, sent) && Towards(g, s, sent, to) && sent.running == s.running
    ensures sent.Held() == s.Held() + multiset{work} && sent.barriers == s.barriers
    ensures Enabled(g, s, Send(run, work.flight)) && sent == Next(g, s, Send(run, work.flight))
    ensures forall m, agent :: OnItsWay(s, m, agent) ==> OnItsWay(sent, m, agent)
    ensures OnItsWay(sent, run.To(), to)
  {
    hide Towards, Consistent;
    work := Queued(FlightTo(run, to), false);
    sent := Next(g, s, Send(run, work.flight));
    StepTowards(g, s, Send(run, work.flight));
    StepsStayConsistent(g, s, Send(run, work.flight));
    assert sent.Held() == s.Held() + multiset{work};
  }

  /** On a free edge a flight releases its barrier, or is too late for it and makes the next one release it. */
  lemma FreeArrival(spec: JoinSpec, b: State, f: Flight)
    requires Sound(spec, b) && b.Names(f) && (spec.join.Any? || spec.upstreams == {f.Sender().value})
    ensures var (after, outcome) := b.Delivered(f);
            outcome.Ready? || (outcome.Late? && after.Delivered(f).1.Ready?)
  {
    if spec.join.All? {
      var full := map[][f.Sender().value := f];
      assert full.Keys == {f.Sender().value} && |full.Keys| == 1 && |full| == |full.Keys|;
    }
  }

  lemma LedTwo(g: RouteGraph, s: Chain, first: Step, second: Step)
    requires Enabled(g, s, first) && Enabled(g, Next(g, s, first), second)
    ensures Led(g, s, [first, second], Next(g, Next(g, s, first), second))
    ensures Starts([first, second]) == Starts([first]) + Starts([second])
  {
    hide Enabled, Next;
    LedOne(g, s, first);
    LedOne(g, Next(g, s, first), second);
    LedThen(g, s, [first], Next(g, s, first), [second], Next(g, Next(g, s, first), second));
    assert [first] + [second] == [first, second];
  }

  lemma WokenThen(g: RouteGraph, s: Chain, mid: Chain, after: Chain, agent: Agent)
    requires Towards(g, s, mid, agent) && Woken(g, mid, after, agent)
    requires agent in g.joins ==> Spared(g, s, mid, agent)
    ensures Woken(g, s, after, agent)
  {
    hide Leads, BarrierOf, Consistent, CanRelease, OnItsWay;
    TowardsThen(g, s, mid, after, agent);
    NowRunning(g, s, after, agent);
    if agent in g.joins && CanRelease(g, mid, agent) {
      LeadsReleases(g, s, mid, agent);
    }
  }

  /** A live run wakes whoever is one free step away, with one more start. */
  lemma Hop(g: RouteGraph, s: Chain, run: Queued, to: Agent) returns (steps: seq<Step>, after: Chain)
    requires Consistent(g, s) && run in s.running && g.FreeStep(run.To(), to)
    ensures Led(g, s, steps, after) && Starts(steps) == 1 && Woken(g, s, after, to)
  {
    hide Towards, Consistent, BarrierOf, Enabled, Next, Led, Woken, Chain.Held, OnItsWay, State.Delivered;
    var sent, work := Sends(g, s, run, to);
    var send := Send(run, work.flight);
    if !Awaited(g, work) {
      after := WakesDirectly(g, sent, work);
      steps := [send, Take(work, true, work)];
      LedTwo(g, s, send, Take(work, true, work));
      SentSpares(g, s, sent, to);
      WokenThen(g, s, sent, after, to);
    } else {
      var mid, late := ArrivesAt(g, s, sent, run, work);
      after := WakesByRelease(g, s, mid, work, to);
      var take :| Enabled(g, mid, take) && take.Take? && take.admitted && after == Next(g, mid, take);
      LedOne(g, mid, take);
      LedThen(g, s, late, mid, [take], after);
      steps := late + [take];
    }
  }

  lemma SentSpares(g: RouteGraph, s: Chain, sent: Chain, agent: Agent)
    requires sent.barriers == s.barriers
    requires forall m, agent :: OnItsWay(s, m, agent) ==> OnItsWay(sent, m, agent)
    ensures agent in g.joins ==> Spared(g, s, sent, agent)
  {
  }

  /** On a free edge to a barrier a flight, or the one sent after it, is about to release it. */
  lemma ArrivesAt(g: RouteGraph, s: Chain, sent: Chain, run: Queued, work: Queued)
    returns (mid: Chain, steps: seq<Step>)
    requires Consistent(g, s) && run in s.running && g.FreeStep(run.To(), work.To()) && Awaited(g, work)
    requires work == Queued(FlightTo(run, work.To()), false)
    requires Enabled(g, s, Send(run, work.flight)) && sent == Next(g, s, Send(run, work.flight))
    requires Consistent(g, sent) && Towards(g, s, sent, work.To()) && work in sent.queue && run in sent.running
    ensures Consistent(g, mid) && Towards(g, s, mid, work.To()) && ReleasesNext(g, mid, work, work.To())
    ensures Led(g, s, steps, mid) && Starts(steps) == 0
  {
    hide Towards, Consistent, BarrierOf, Enabled, Next, Led, Chain.Held, OnItsWay, State.Delivered, Sound;
    var to, send, take := work.To(), Send(run, work.flight), Take(work, false, work);
    AwaitedMeets(g, sent, work);
    BarrierIsSound(g, sent, to);
    FreeArrival(g.joins[to], BarrierOf(g, sent, to), work.flight);
    LedOne(g, s, send);
    mid, steps := sent, [send];
    if !BarrierOf(g, sent, to).Delivered(work.flight).1.Ready? {
      var late := DeliversOne(g, sent, work, run.To());
      LedTwo(g, s, send, take);
      var again;
      mid, again := Sends(g, late, run, to);
      LedOne(g, late, send);
      LedThen(g, s, [send, take], late, [send], mid);
      TowardsThen(g, s, sent, late, to);
      TowardsThen(g, s, late, mid, to);
      SameBarrier(g, late, mid, to);
      steps := [send, take] + [send];
    }
  }

  ghost function Awake(s: Chain): iset<Agent> {
    iset agent | agent in s.Running()
  }

  /** Everybody in `who` who may come is put on the way. */
  lemma {:induction false} AllSend(g: RouteGraph, s: Chain, agent: Agent, who: set<Agent>) returns (sent: Chain)
    requires Consistent(g, s) && forall m :: m in who ==> MayCome(g, s, Awake(s), m, agent)
    ensures Consistent(g, sent) && Towards(g, s, sent, agent)
    ensures sent.running == s.running && sent.barriers == s.barriers
    ensures forall m :: m in who || OnItsWay(s, m, agent) ==> OnItsWay(sent, m, agent)
    decreases who
  {
    hide Towards, Consistent, Enabled, Next, OnItsWay, Chain.Held;
    if who == {} {
      SameTowards(g, s, agent);
      return s;
    }
    var m :| m in who;
    var mid := s;
    if OnItsWay(s, m, agent) {
      SameTowards(g, s, agent);
    } else {
      var run :| run in s.running && run.To() == m;
      var work;
      mid, work := Sends(g, s, run, agent);
    }
    assert mid.Running() == s.Running();
    sent := AllSend(g, mid, agent, who - {m});
    TowardsThen(g, s, mid, sent, agent);
  }

  /** A flight too late for an `any` barrier begins the wave that the next from its sender releases. */
  lemma LateThenEnough(g: RouteGraph, s: Chain, agent: Agent, m: Agent) returns (after: Chain)
    requires agent in g.joins && Consistent(g, s) && g.joins[agent].join.Any? && m in g.joins[agent].upstreams
    requires BarrierOf(g, s, agent).released && m !in BarrierOf(g, s, agent).seen && TwoOnTheirWay(s, m, agent)
    ensures Consistent(g, after) && Towards(g, s, after, agent) && Enough(g, after, agent)
  {
    hide Towards, Consistent, Enabled, Next, Chain.Held, BarrierOf;
    var work :| work in s.Held() && work.Bears(m, agent) && Coming(s.Held() - multiset{work}, m, agent);
    var ready := ToQueue(g, s, work);
    SameBarrier(g, s, ready, agent);
    BarrierIsSound(g, s, agent);
    AwaitedMeets(g, ready, work);
    after := DeliversOne(g, ready, work, m);
    TowardsThen(g, s, ready, after, agent);
  }

  /** A barrier that is not unmet can be brought to enough. */
  lemma MetIsEnough(g: RouteGraph, s: Chain, agent: Agent) returns (after: Chain)
    requires agent in g.joins && Consistent(g, s) && !Unmet(g, s, Awake(s), agent)
    ensures Consistent(g, after) && Towards(g, s, after, agent) && Enough(g, after, agent)
    ensures agent in s.Own() + g.Nodes()
  {
    hide Towards, Consistent, Enabled, Next, Chain.Held, BarrierOf, TwoOnTheirWay, Sound;
    var b := BarrierOf(g, s, agent);
    BarrierIsSound(g, s, agent);
    if g.joins[agent].join.All? {
      var m :| m in b.Missing();
      assert MayCome(g, s, Awake(s), m, agent);
      after := AllSend(g, s, agent, b.Missing());
      SameBarrier(g, s, after, agent);
    } else {
      var m :| m in g.joins[agent].upstreams && OnItsWay(s, m, agent)
        && (b.released && m !in b.seen ==> TwoOnTheirWay(s, m, agent));
      if b.released && m !in b.seen {
        after := LateThenEnough(g, s, agent, m);
      } else {
        after := s;
        SameTowards(g, s, agent);
        AnyMisses(g.joins[agent], b);
      }
    }
  }

  lemma AnyMisses(spec: JoinSpec, b: State)
    requires Sound(spec, b) && spec.join.Any?
    ensures b.Missing() == spec.upstreams
  {
  }

  /** Whoever is not shut out by those running can be woken. */
  lemma WakesOne(g: RouteGraph, s: Chain, agent: Agent) returns (after: Chain)
    requires Consistent(g, s) && agent !in s.Running() && !ShutOut(g, s, Awake(s), agent)
    ensures Woken(g, s, after, agent) && agent in s.Own() + g.Nodes()
  {
    hide Towards, Consistent, Enabled, Next, Chain.Held, BarrierOf, Unmet, Woken, Led;
    if from :| from in Awake(s) && g.FreeStep(from, agent) {
      var run :| run in s.running && run.To() == from;
      var steps;
      steps, after := Hop(g, s, run, agent);
    } else if work :| work in s.Held() && work.To() == agent && !(work !in s.running && Awaited(g, work)) {
      var ready := ToQueue(g, s, work);
      after := WakesDirectly(g, ready, work);
      HeldIsComing(s, ready);
      SentSpares(g, s, ready, agent);
      WokenThen(g, s, ready, after, agent);
    } else {
      var met := MetIsEnough(g, s, agent);
      var mid, last := EnoughArrives(g, met, agent);
      TowardsThen(g, s, met, mid, agent);
      TowardsIsConsistent(g, s, mid, agent);
      after := WakesByRelease(g, s, mid, last, agent);
    }
  }

  lemma TowardsIsConsistent(g: RouteGraph, s: Chain, after: Chain, agent: Agent)
    requires Towards(g, s, after, agent)
    ensures Consistent(g, after)
  {
  }

  // ----- waking everybody who can be woken -----

  /** Others have been woken, and nobody else is the worse for it. */
  ghost predicate Grown(g: RouteGraph, s: Chain, after: Chain) {
    && Consistent(g, after) && Leads(g, s, after) && s.Running() <= after.Running()
    && (forall work: Queued :: work.To() !in after.Running() ==> after.Held()[work] == s.Held()[work])
    && (forall a :: a in g.joins && a !in after.Running() ==> BarrierOf(g, after, a) == BarrierOf(g, s, a))
    && (forall a :: a in g.joins ==> CanRelease(g, s, a) || Spared(g, s, after, a))
  }

  lemma WokenIsGrown(g: RouteGraph, s: Chain, after: Chain, agent: Agent)
    requires Woken(g, s, after, agent)
    ensures Grown(g, s, after)
    ensures after.Own() <= s.Own() + {agent}
  {
    hide Leads, BarrierOf, Consistent, CanRelease, Chain.Held, Chain.Running;
    forall a | a in g.joins && a != agent ensures Spared(g, s, after, a) {
      forall m | OnItsWay(s, m, a) ensures OnItsWay(after, m, a) {
        var work :| work in s.Held() && work.Bears(m, a);
        assert after.Held()[work] == s.Held()[work];
      }
    }
    forall work | work in after.Held() ensures work.To() in s.Own() + {agent} {
      assert work.To() != agent ==> after.Held()[work] == s.Held()[work];
    }
  }

  lemma GrownThen(g: RouteGraph, s: Chain, mid: Chain, after: Chain)
    requires Grown(g, s, mid) && Grown(g, mid, after)
    ensures Grown(g, s, after)
  {
    hide Leads, BarrierOf, Consistent, CanRelease, Chain.Held, Chain.Running, OnItsWay;
    LeadsThen(g, s, mid, after);
    forall a | a in g.joins ensures CanRelease(g, s, a) || Spared(g, s, after, a) {
      if CanRelease(g, mid, a) {
        LeadsReleases(g, s, mid, a);
      }
    }
  }

  /** One and the same run of the chain wakes everybody it can wake, and spares every barrier it does not release. */
  lemma {:induction false} WakesAll(g: RouteGraph, s: Chain, known: set<Agent>) returns (after: Chain)
    requires Consistent(g, s) && s.Own() + g.Nodes() <= known
    ensures Grown(g, s, after) && Closed(g, after, Awake(after))
    decreases |known - s.Running()|
  {
    hide Consistent, Chain.Held, ShutOut, Chain.Running, BarrierOf, Enabled;
    if agent :| agent !in Awake(s) && !ShutOut(g, s, Awake(s), agent) {
      var mid := WakesOne(g, s, agent);
      WokenIsGrown(g, s, mid, agent);
      TowardsIsConsistent(g, s, mid, agent);
      FewerLeft(known, s.Running(), agent);
      var rest := WakesAll(g, mid, known);
      GrownThen(g, s, mid, rest);
      after := rest;
    } else {
      after := s;
      assert Led(g, s, [], s);
    }
  }

  lemma FewerLeft(known: set<Agent>, running: set<Agent>, agent: Agent)
    requires agent in known && agent !in running
    ensures |known - (running + {agent})| < |known - running|
  {
    assert known - running == (known - (running + {agent})) + {agent};
  }

  /** Whom those running in `after` shut out there, they shut out from the beginning. */
  lemma WasClosed(g: RouteGraph, s: Chain, after: Chain)
    requires Consistent(g, s) && Grown(g, s, after) && Closed(g, after, Awake(after))
    ensures Closed(g, s, Awake(after))
  {
    hide Leads, BarrierOf, Consistent, CanRelease, Chain.Held, OnItsWay, TwoOnTheirWay;
    var closed := Awake(after);
    forall agent | agent !in closed ensures ShutOut(g, s, closed, agent) {
      assert ShutOut(g, after, closed, agent);
      SameWork(s, after, agent);
      forall work | work in s.Held() && work.To() == agent ensures work !in s.running && Awaited(g, work) {
        assert after.Held()[work] == s.Held()[work];
        assert work in s.running ==> agent in s.Running();
      }
    }
  }

  lemma SameWork(s: Chain, after: Chain, agent: Agent)
    requires forall work: Queued :: work.To() == agent ==> after.Held()[work] == s.Held()[work]
    ensures forall m :: OnItsWay(after, m, agent) <==> OnItsWay(s, m, agent)
    ensures forall m :: TwoOnTheirWay(after, m, agent) <==> TwoOnTheirWay(s, m, agent)
  {
    hide Chain.Held;
    var a, b := after.Held(), s.Held();
    forall m ensures OnItsWay(after, m, agent) <==> OnItsWay(s, m, agent) {
      SameComing(a, b, m, agent);
    }
    forall m ensures TwoOnTheirWay(after, m, agent) <==> TwoOnTheirWay(s, m, agent) {
      forall work: Queued
        ensures Coming(a - multiset{work}, m, agent) <==> Coming(b - multiset{work}, m, agent)
      {
        SameComing(a - multiset{work}, b - multiset{work}, m, agent);
      }
      assert forall work: Queued :: work.Bears(m, agent) ==> a[work] == b[work];
    }
  }

  lemma SameComing(a: multiset<Queued>, b: multiset<Queued>, m: Agent, agent: Agent)
    requires forall work: Queued :: work.To() == agent ==> a[work] == b[work]
    ensures Coming(a, m, agent) <==> Coming(b, m, agent)
  {
    if work :| work in a && work.Bears(m, agent) { assert a[work] == b[work]; }
    if work :| work in b && work.Bears(m, agent) { assert a[work] == b[work]; }
  }

  // ----- exactly who can run, and which barriers can release -----

  /** Exactly those can run whom every closed set holds, and one run of the chain wakes them all. */
  lemma RunsExactlyWhenWakeable(g: RouteGraph, s: Chain, agent: Agent)
    requires Consistent(g, s)
    ensures CanRun(g, s, agent) <==> Wakeable(g, s, agent)
  {
    hide Closed, Consistent, Grown, Leads;
    var all := EverybodyWakes(g, s);
    if CanRun(g, s, agent) {
      forall closed | Closed(g, s, closed) ensures agent in closed {
        RunsWithin(g, s, agent, closed);
      }
    }
  }

  lemma RunsWithin(g: RouteGraph, s: Chain, agent: Agent, closed: iset<Agent>)
    requires Consistent(g, s) && CanRun(g, s, agent) && Closed(g, s, closed)
    ensures agent in closed
  {
    hide Led, Consistent, Closed;
    var after :| Leads(g, s, after) && agent in after.Running();
    var steps :| Led(g, s, steps, after);
    LedStaysClosed(g, s, steps, after, closed);
    var run :| run in after.running && run.To() == agent;
    RunsAreClosed(g, after, closed, run);
  }

  /** All who can be woken are, in one run. */
  lemma EverybodyWakes(g: RouteGraph, s: Chain) returns (after: Chain)
    requires Consistent(g, s)
    ensures Grown(g, s, after) && Leads(g, s, after) && Closed(g, s, Awake(after))
    ensures forall agent :: agent in after.Running() <==> Wakeable(g, s, agent)
  {
    hide Consistent, Closed, Led;
    after := WakesAll(g, s, s.Own() + g.Nodes());
    WasClosed(g, s, after);
    forall agent | agent in after.Running() ensures Wakeable(g, s, agent) {
      assert CanRun(g, s, agent);
      forall closed | Closed(g, s, closed) ensures agent in closed {
        RunsWithin(g, s, agent, closed);
      }
    }
  }

  /** Whether what a barrier misses can come, one upstream at a time. */
  ghost predicate Heard(g: RouteGraph, s: Chain, agent: Agent)
    requires agent in g.joins
  {
    var missing := BarrierOf(g, s, agent).Missing();
    match g.joins[agent].join
    case All => forall m :: m in missing ==> OnItsWay(s, m, agent) || (Wakeable(g, s, m) && g.Step(false, m, agent))
    case Any => exists m :: m in missing && (OnItsWay(s, m, agent) || (Wakeable(g, s, m) && g.Step(false, m, agent)))
  }

  /** A barrier that waits can release exactly when everybody it misses (under `any`, somebody) can come, each
      judged alone: no order in which they come, and no other barrier on the way, ever makes them shut each other
      out. */
  lemma ReleasesExactlyWhenHeard(g: RouteGraph, s: Chain, agent: Agent)
    requires agent in g.joins && Consistent(g, s)
    requires !BarrierOf(g, s, agent).released && BarrierOf(g, s, agent).Missing() != {}
    ensures CanRelease(g, s, agent) <==> Heard(g, s, agent)
  {
    hide Closed, Consistent, Grown, OnItsWay, BarrierOf, Wakeable, CanRelease, Leads;
    var all := EverybodyWakes(g, s);
    if Heard(g, s, agent) {
      HeardReleases(g, s, all, agent);
    } else {
      var b := BarrierOf(g, s, agent);
      BarrierIsSound(g, s, agent);
      var gone := set m | m in b.Missing() && !MayCome(g, s, Awake(all), m, agent);
      UnheardIsBlocked(g, s, all, agent, gone);
      NeverReleases(g, s, agent, gone, Awake(all));
    }
  }

  lemma UnheardIsBlocked(g: RouteGraph, s: Chain, all: Chain, agent: Agent, gone: set<Agent>)
    requires agent in g.joins && Consistent(g, s) && !Heard(g, s, agent)
    requires forall a :: a in all.Running() <==> Wakeable(g, s, a)
    requires !BarrierOf(g, s, agent).released
    requires gone == set m | m in BarrierOf(g, s, agent).Missing() && !MayCome(g, s, Awake(all), m, agent)
    ensures Blocked(g.joins[agent], BarrierOf(g, s, agent), gone)
  {
    hide OnItsWay, Wakeable, Chain.Running;
    if g.joins[agent].join.All? {
      var m :| m in BarrierOf(g, s, agent).Missing()
        && !(OnItsWay(s, m, agent) || (Wakeable(g, s, m) && g.Step(false, m, agent)));
      assert m in gone;
    }
  }

  lemma HeardReleases(g: RouteGraph, s: Chain, all: Chain, agent: Agent)
    requires agent in g.joins && Consistent(g, s) && Grown(g, s, all)
    requires !BarrierOf(g, s, agent).released && BarrierOf(g, s, agent).Missing() != {}
    requires Heard(g, s, agent) && forall a :: Wakeable(g, s, a) ==> a in all.Running()
    ensures CanRelease(g, s, agent)
  {
    hide Consistent, OnItsWay, Wakeable, CanRelease, Chain.Running, BarrierOf, Leads;
    if !CanRelease(g, s, agent) {
      var b := BarrierOf(g, s, agent);
      var who := b.Missing();
      if g.joins[agent].join.Any? {
        var m :| m in who && (OnItsWay(s, m, agent) || (Wakeable(g, s, m) && g.Step(false, m, agent)));
        who := {m};
      }
      assert Spared(g, s, all, agent);
      var sent := AllSend(g, all, agent, who);
      SameBarrier(g, all, sent, agent);
      assert Enough(g, sent, agent);
      EnoughReleases(g, sent, agent);
      LeadsReleases(g, all, sent, agent);
      LeadsReleases(g, s, all, agent);
    }
  }

  // ----- ways no barrier can hold up -----

  ghost predicate FreeWay(g: RouteGraph, p: seq<Agent>) {
    |p| > 0 && forall i :: 0 <= i < |p| - 1 ==> g.FreeStep(p[i], p[i + 1])
  }

  /** Along a free way from a live run, everybody runs in turn. */
  lemma {:induction false} FreeWayRuns(g: RouteGraph, s: Chain, run: Queued, p: seq<Agent>)
    returns (steps: seq<Step>, after: Chain)
    requires Consistent(g, s) && FreeWay(g, p) && run in s.running && run.To() == p[0]
    ensures Led(g, s, steps, after) && Starts(steps) == |p| - 1 && p[|p| - 1] in after.Running()
    decreases |p|
  {
    hide Towards, Consistent, Enabled, Next;
    if |p| == 1 {
      steps, after := [], s;
      assert Led(g, s, [], s);
    } else {
      assert g.FreeStep(p[0], p[0 + 1]);
      var first, mid := Hop(g, s, run, p[1]);
      TowardsIsConsistent(g, s, mid, p[1]);
      assert p[1] in mid.Running();
      var next :| next in mid.running && next.To() == p[1];
      forall i | 0 <= i < |p[1..]| - 1 ensures g.FreeStep(p[1..][i], p[1..][i + 1]) {
        assert g.FreeStep(p[i + 1], p[i + 1 + 1]);
      }
      var second;
      second, after := FreeWayRuns(g, mid, next, p[1..]);
      LedThen(g, s, first, mid, second, after);
      steps := first + second;
    }
  }

  /** And so they do from work that is waiting to be taken off the queue, with one start for each. */
  lemma FreeWayStarts(g: RouteGraph, s: Chain, work: Queued, p: seq<Agent>) returns (steps: seq<Step>, after: Chain)
    requires Consistent(g, s) && FreeWay(g, p) && work in s.queue && !Awaited(g, work) && work.To() == p[0]
    ensures Led(g, s, steps, after) && Starts(steps) == |p| && p[|p| - 1] in after.Running()
  {
    hide Towards, Consistent, Led, Enabled, Next;
    var take := Take(work, true, work);
    var mid := WakesDirectly(g, s, work);
    TowardsIsConsistent(g, s, mid, p[0]);
    AdmittedRuns(g, s, take);
    var rest;
    rest, after := FreeWayRuns(g, mid, work, p);
    LedOne(g, s, take);
    LedThen(g, s, [take], mid, rest, after);
    steps := [take] + rest;
  }
}
