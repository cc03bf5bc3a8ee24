/** One chain of a running factory: its live runs, its undelivered flights and its barriers, who can no longer
    run in it, and which barriers can no longer release. */
module Chains {
  import opened Prelude
  import opened Routes
  import opened Graph
  import opened Barriers

  /** Work as it is queued. A released join's work goes straight to its agent when restarted. */
  datatype Queued = Queued(flight: Flight, released: bool) {
    function To(): Agent {
      flight.to
    }

    /** Whether `m` sent this to `agent`, to be delivered there. */
    predicate Bears(m: Agent, agent: Agent) {
      !released && To() == agent && flight.Sender() == Some(m)
    }
  }

  /** `running` holds each live run as the work a restart of it would queue again, and `cut` the runs that were
      cut off and are left for whoever settles them. `queue` is all that is undelivered, read or not. */
  datatype Chain = Chain(
    running: multiset<Queued>, cut: multiset<Queued>, queue: multiset<Queued>, barriers: map<Agent, State>)
  {
    /** All the work that may yet be delivered or run again. */
    function Held(): multiset<Queued> {
      running + cut + queue
    }

    function Running(): set<Agent> {
      set work | work in running :: work.To()
    }

    /** Whom the chain's own work is for. */
    function Own(): set<Agent> {
      set work | work in Held() :: work.To()
    }
  }

  datatype Step =
    | Send(run: Queued, flight: Flight)        // a live run sends along an edge that continues the chain
    | Finish(run: Queued)
    | Restart(run: Queued)                     // an interrupted run's work is queued again
    | CutOff(run: Queued)                      // killed for an install, and forgotten at once
    | Settle(run: Queued, again: bool)         // the install failed: queued again, where its agent allows
    | Drop(work: Queued)                       // refused by a rail, or cancelled
    | Take(work: Queued, admitted: bool, kept: Queued)  // taken off the queue, past any barrier
    | Abandon(agent: Agent)

  function BarrierOf(g: RouteGraph, s: Chain, agent: Agent): State
    requires agent in g.joins
  {
    if agent in s.barriers then s.barriers[agent] else Fresh(g.joins[agent])
  }

  /** Whether taking `work` meets a barrier rather than going straight to its agent. */
  predicate Meets(g: RouteGraph, work: Queued) {
    !work.released && work.To() in g.joins
  }

  /** The one piece of work a release folds its flights into. Several arrivals make it released work. */
  predicate Folds(kept: Queued, agent: Agent, flights: map<Agent, Flight>) {
    && kept.To() == agent
    && kept.released == (|flights| > 1)
    && kept.flight.Sender().Some? && kept.flight.Sender().value in flights
  }

  predicate Enabled(g: RouteGraph, s: Chain, step: Step) {
    match step
    case Send(run, flight) =>
      run in s.running && flight.from == FromAgent(run.To()) && g.Step(false, run.To(), flight.to)
    case Finish(run) => run in s.running
    case Restart(run) => run in s.running
    case CutOff(run) => run in s.running
    case Settle(run, _) => run in s.cut
    case Drop(work) => work in s.queue
    case Take(work, admitted, kept) =>
      && work in s.queue
      && (if Meets(g, work) then
            var outcome := BarrierOf(g, s, work.To()).Delivered(work.flight).1;
            match outcome
            case Ready(flights) => Folds(kept, work.To(), flights)
            case Direct(_) => kept == work
            case _ => !admitted
          else kept == work)
    case Abandon(agent) => agent in s.barriers && !s.barriers[agent].released
  }

  function Next(g: RouteGraph, s: Chain, step: Step): Chain
    requires Enabled(g, s, step)
  {
    match step
    case Send(run, flight) => s.(queue := s.queue + multiset{Queued(flight, false)})
    case Finish(run) => s.(running := s.running - multiset{run})
    case Restart(run) => s.(running := s.running - multiset{run}, queue := s.queue + multiset{run})
    case CutOff(run) => s.(running := s.running - multiset{run}, cut := s.cut + multiset{run})
    case Settle(run, again) =>
      s.(cut := s.cut - multiset{run}, queue := if again then s.queue + multiset{run} else s.queue)
    case Drop(work) => s.(queue := s.queue - multiset{work})
    case Take(work, admitted, kept) =>
      Chain(
        if admitted then s.running + multiset{kept} else s.running,
        s.cut,
        s.queue - multiset{work},
        if Meets(g, work)
        then s.barriers[work.To() := BarrierOf(g, s, work.To()).Delivered(work.flight).0]
        else s.barriers)
    case Abandon(agent) => s.(barriers := s.barriers - {agent})
  }

  /** Whether `step` makes the barrier guarding `agent` release. */
  predicate Releases(g: RouteGraph, s: Chain, step: Step, agent: Agent) {
    && step.Take? && step.work in s.queue && Meets(g, step.work) && step.work.To() == agent
    && BarrierOf(g, s, agent).Delivered(step.work.flight).1.Ready?
  }

  /** `steps` can be taken one after another from `s`, and one of them releases `agent`'s barrier. */
  predicate ReleasedBy(g: RouteGraph, s: Chain, steps: seq<Step>, agent: Agent)
    decreases |steps|
  {
    && steps != [] && Enabled(g, s, steps[0])
    && (Releases(g, s, steps[0], agent) || ReleasedBy(g, Next(g, s, steps[0]), steps[1..], agent))
  }

  ghost predicate CanRelease(g: RouteGraph, s: Chain, agent: Agent) {
    exists steps :: ReleasedBy(g, s, steps, agent)
  }

  /** `steps` can be taken one after another from `s`, and lead to `after`. */
  ghost predicate Led(g: RouteGraph, s: Chain, steps: seq<Step>, after: Chain)
    decreases |steps|
  {
    if steps == [] then after == s
    else Enabled(g, s, steps[0]) && Led(g, Next(g, s, steps[0]), steps[1..], after)
  }

  ghost predicate Leads(g: RouteGraph, s: Chain, after: Chain) {
    exists steps :: Led(g, s, steps, after)
  }

  ghost predicate CanRun(g: RouteGraph, s: Chain, agent: Agent) {
    exists after :: Leads(g, s, after) && agent in after.Running()
  }

  /** How many runs `steps` start. */
  function Starts(steps: seq<Step>): nat {
    if steps == [] then 0
    else (if steps[0].Take? && steps[0].admitted then 1 else 0) + Starts(steps[1..])
  }

  lemma {:induction false} LedThen(
    g: RouteGraph, s: Chain, first: seq<Step>, mid: Chain, second: seq<Step>, after: Chain)
    requires Led(g, s, first, mid) && Led(g, mid, second, after)
    ensures Led(g, s, first + second, after) && Starts(first + second) == Starts(first) + Starts(second)
    decreases |first|
  {
    hide Enabled, Next;
    if first == [] {
      assert first + second == second;
    } else {
      assert (first + second)[1..] == first[1..] + second;
      LedThen(g, Next(g, s, first[0]), first[1..], mid, second, after);
    }
  }

  lemma LeadsThen(g: RouteGraph, s: Chain, mid: Chain, after: Chain)
    requires Leads(g, s, mid) && Leads(g, mid, after)
    ensures Leads(g, s, after)
  {
    hide Led;
    var first :| Led(g, s, first, mid);
    var second :| Led(g, mid, second, after);
    LedThen(g, s, first, mid, second, after);
  }

  lemma LedOne(g: RouteGraph, s: Chain, step: Step)
    requires Enabled(g, s, step)
    ensures Led(g, s, [step], Next(g, s, step)) && Leads(g, s, Next(g, s, step))
  {
    hide Enabled, Next;
    assert [step][1..] == [] && Led(g, Next(g, s, step), [], Next(g, s, step));
  }

  lemma {:induction false} LedReleases(g: RouteGraph, s: Chain, steps: seq<Step>, after: Chain, agent: Agent)
    requires Led(g, s, steps, after) && CanRelease(g, after, agent)
    ensures CanRelease(g, s, agent)
    decreases |steps|
  {
    hide Enabled, Next, Releases;
    if steps != [] {
      var next := Next(g, s, steps[0]);
      LedReleases(g, next, steps[1..], after, agent);
      var more :| ReleasedBy(g, next, more, agent);
      assert ([steps[0]] + more)[1..] == more;
      assert ReleasedBy(g, s, [steps[0]] + more, agent);
    }
  }

  lemma LeadsReleases(g: RouteGraph, s: Chain, after: Chain, agent: Agent)
    requires Leads(g, s, after) && CanRelease(g, after, agent)
    ensures CanRelease(g, s, agent)
  {
    var steps :| Led(g, s, steps, after);
    LedReleases(g, s, steps, after, agent);
  }

  lemma ReleasesNow(g: RouteGraph, s: Chain, step: Step, agent: Agent)
    requires Enabled(g, s, step) && Releases(g, s, step, agent)
    ensures CanRelease(g, s, agent)
  {
    assert ReleasedBy(g, s, [step], agent);
  }

  // ----- what every step keeps -----

  /** What every barrier of a chain satisfies, whatever has been delivered to it. */
  predicate Sound(spec: JoinSpec, b: State) {
    && b.required == spec.upstreams && b.join == spec.join
    && b.parked.Keys <= b.seen <= b.required
    && (b.released ==> b.parked == map[])
    && (b.join.Any? ==> b.parked == map[])
    && (b.join.All? ==> if b.released then b.seen == b.required else b.seen == b.parked.Keys)
    && (b.join.Any? && !b.released ==> b.seen == {})
    && (b.Missing() == {} ==> b.required == {})
  }

  predicate Consistent(g: RouteGraph, s: Chain) {
    forall a :: a in s.barriers ==> a in g.joins && Sound(g.joins[a], s.barriers[a])
  }

  lemma DeliveredStaysSound(spec: JoinSpec, b: State, f: Flight)
    requires Sound(spec, b)
    ensures Sound(spec, b.Delivered(f).0)
  {
    if b.Names(f) && b.join.All? {
      var begun := if b.Resets(f) then map[] else b.parked;
      var full := begun[f.Sender().value := f];
      FullSet(full.Keys, spec.upstreams);
      assert |full| == |full.Keys|;
    }
  }

  /** Every step keeps every barrier sound, so a chain that began with none only ever has sound ones. */
  lemma StepsStayConsistent(g: RouteGraph, s: Chain, step: Step)
    requires Consistent(g, s) && Enabled(g, s, step)
    ensures Consistent(g, Next(g, s, step))
  {
    if step.Take? && Meets(g, step.work) {
      var agent := step.work.To();
      DeliveredStaysSound(g.joins[agent], BarrierOf(g, s, agent), step.work.flight);
    }
  }

  // ----- who cannot run -----

  ghost predicate Coming(held: multiset<Queued>, m: Agent, agent: Agent) {
    exists work :: work in held && work.Bears(m, agent)
  }

  /** Whether a flight from `m` to `agent` may yet be delivered. */
  ghost predicate OnItsWay(s: Chain, m: Agent, agent: Agent) {
    Coming(s.Held(), m, agent)
  }

  /** Whether two may be. */
  ghost predicate TwoOnTheirWay(s: Chain, m: Agent, agent: Agent) {
    exists work :: work in s.Held() && work.Bears(m, agent) && Coming(s.Held() - multiset{work}, m, agent)
  }

  /** Whether `m` may yet be heard from at `agent`: its flight is on its way, or it is one of those who can run and
      may send one. */
  ghost predicate MayCome(g: RouteGraph, s: Chain, closed: iset<Agent>, m: Agent, agent: Agent) {
    OnItsWay(s, m, agent) || (m in closed && g.Step(false, m, agent))
  }

  /** Whether the rendezvous `work` is for waits for its sender. */
  predicate Awaited(g: RouteGraph, work: Queued) {
    !work.released && work.flight.Sender().Some? && g.Awaits(work.To(), work.flight.Sender().value)
  }

  /** Whether the barrier guarding `agent` cannot release on what is on its way and what `closed` may send: under
      `all` somebody it misses cannot come, under `any` whatever comes is too late for this wave and does not
      begin the next. */
  ghost predicate Unmet(g: RouteGraph, s: Chain, closed: iset<Agent>, agent: Agent)
    requires agent in g.joins
  {
    var b := BarrierOf(g, s, agent);
    match g.joins[agent].join
    case All => b.Missing() != {} ==> exists m :: m in b.Missing() && !MayCome(g, s, closed, m, agent)
    case Any => forall m :: m in g.joins[agent].upstreams && OnItsWay(s, m, agent) ==>
                  b.released && m !in b.seen && !TwoOnTheirWay(s, m, agent)
  }

  /** Whether `agent`, not one of `closed`, cannot be woken by them: none has a free step to it, all its work waits
      at its barrier, and its barrier cannot release. */
  ghost predicate ShutOut(g: RouteGraph, s: Chain, closed: iset<Agent>, agent: Agent) {
    && (forall from :: from in closed ==> !g.FreeStep(from, agent))
    && (forall work :: work in s.Held() && work.To() == agent ==> work !in s.running && Awaited(g, work))
    && (agent in g.joins ==> Unmet(g, s, closed, agent))
  }

  /** `closed` holds whoever is running, and cannot wake anybody else. */
  ghost predicate Closed(g: RouteGraph, s: Chain, closed: iset<Agent>) {
    forall agent :: agent !in closed ==> ShutOut(g, s, closed, agent)
  }

  /** The least such set: whom the chain can still wake, judged from where it stands. */
  ghost predicate Wakeable(g: RouteGraph, s: Chain, agent: Agent) {
    forall closed :: Closed(g, s, closed) ==> agent in closed
  }

  lemma AwaitedMeets(g: RouteGraph, s: Chain, work: Queued)
    requires Consistent(g, s)
    ensures Awaited(g, work) <==> Meets(g, work) && BarrierOf(g, s, work.To()).Names(work.flight)
  {
  }

  /** Work folded from a single arrival came from the flight that released the barrier. */
  lemma SoleArrival(b: State, f: Flight, kept: Queued)
    requires match b.Delivered(f).1
             case Ready(flights) =>
               kept.flight.Sender().Some? && kept.flight.Sender().value in flights && |flights| <= 1
             case _ => kept.flight == f
    ensures kept.flight.Sender() == f.Sender()
  {
    if b.Delivered(f).1.Ready? {
      var flights := b.Delivered(f).1.flights;
      var sender := f.Sender().value;
      assert sender in flights;
      assert |flights.Keys| == |flights.Keys - {sender}| + 1;
      assert flights.Keys - {sender} == {};
    }
  }

  /** What is on its way after a step was so before it, or was just sent by a run. */
  lemma ComesFrom(g: RouteGraph, s: Chain, step: Step, m: Agent, agent: Agent)
    requires Enabled(g, s, step) && OnItsWay(Next(g, s, step), m, agent)
    ensures || OnItsWay(s, m, agent)
            || (step.Send? && step.run in s.running && step.run.To() == m && g.Step(false, m, agent))
  {
    hide BarrierOf, State.Delivered;
    var work :| work in Next(g, s, step).Held() && work.Bears(m, agent);
    if work !in s.Held() && step.Take? {
      var before := step.work;
      assert work == step.kept;
      if Meets(g, before) {
        SoleArrival(BarrierOf(g, s, before.To()), before.flight, work);
      }
      assert before in s.Held() && before.Bears(m, agent);
    }
  }

  /** Nobody who could not come can after a step. */
  lemma MayComeShrinks(g: RouteGraph, s: Chain, step: Step, closed: iset<Agent>, m: Agent, agent: Agent)
    requires Enabled(g, s, step) && Closed(g, s, closed) && !MayCome(g, s, closed, m, agent)
    ensures !MayCome(g, Next(g, s, step), closed, m, agent)
  {
    hide Next, Enabled, OnItsWay;
    if OnItsWay(Next(g, s, step), m, agent) {
      ComesFrom(g, s, step, m, agent);
    }
  }

  lemma DeliveredInVain(g: RouteGraph, s: Chain, work: Queued, closed: iset<Agent>)
    requires Consistent(g, s) && work in s.Held() && work.To() !in closed && Closed(g, s, closed)
    ensures Awaited(g, work) && Meets(g, work)
    ensures var b, m := BarrierOf(g, s, work.To()), work.flight.Sender().value;
            var (after, outcome) := b.Delivered(work.flight);
            !outcome.Ready? && !outcome.Direct?
            && match g.joins[work.To()].join
               case Any => after.released && after.seen == b.seen + {m}
               case All => forall k :: k in b.Missing() && k != m ==> k in after.Missing()
  {
    var agent := work.To();
    assert ShutOut(g, s, closed, agent) && Awaited(g, work);
    AwaitedMeets(g, s, work);
    var b, m := BarrierOf(g, s, agent), work.flight.Sender().value;
    assert work.Bears(m, agent) && OnItsWay(s, m, agent);
    if b.join.All? {
      var missing :| missing in b.Missing() && !MayCome(g, s, closed, missing, agent);
      var begun := if b.Resets(work.flight) then map[] else b.parked;
      var full := begun[m := work.flight];
      assert missing !in full;
      FullSet(full.Keys, b.required);
      assert |full| == |full.Keys|;
    }
  }

  lemma RunsAreClosed(g: RouteGraph, s: Chain, closed: iset<Agent>, work: Queued)
    requires Closed(g, s, closed) && work in s.running
    ensures work.To() in closed
  {
    assert work in s.Held();
    assert work.To() !in closed ==> ShutOut(g, s, closed, work.To());
  }

  lemma HeldCounts(s: Chain, work: Queued)
    ensures s.Held()[work] == s.running[work] + s.cut[work] + s.queue[work]
  {
  }

  /** Whom a step concerns. */
  function About(step: Step): Agent {
    match step
    case Send(_, flight) => flight.to
    case Take(work, _, _) => work.To()
    case Drop(work) => work.To()
    case Abandon(agent) => agent
    case _ => step.run.To()
  }

  /** Only sending, and being admitted, add to what there is of any work. */
  predicate Adds(step: Step) {
    step.Send? || (step.Take? && step.admitted)
  }

  /** A step changes only the work of the agent it concerns, and mostly takes from it. */
  ghost predicate Counted(s: Chain, after: Chain, step: Step, work: Queued) {
    && (About(step) != work.To() ==> after.running[work] == s.running[work] && after.Held()[work] == s.Held()[work])
    && (!Adds(step) ==> after.running[work] <= s.running[work] && after.Held()[work] <= s.Held()[work])
  }

  lemma TakeCounts(g: RouteGraph, s: Chain, take: Step, work: Queued)
    requires Enabled(g, s, take) && take.Take?
    ensures Counted(s, Next(g, s, take), take, work)
  {
    hide BarrierOf, State.Delivered, Chain.Held;
    HeldCounts(s, work);
    HeldCounts(Next(g, s, take), work);
  }

  lemma RunCounts(g: RouteGraph, s: Chain, step: Step, work: Queued)
    requires Enabled(g, s, step) && (step.Finish? || step.Restart? || step.CutOff?)
    ensures Counted(s, Next(g, s, step), step, work)
  {
    hide BarrierOf, State.Delivered, Chain.Held, Meets, Folds;
    HeldCounts(s, work);
    HeldCounts(Next(g, s, step), work);
    assert s.running[step.run] > 0;
  }

  lemma QueueCounts(g: RouteGraph, s: Chain, step: Step, work: Queued)
    requires Enabled(g, s, step) && (step.Send? || step.Settle? || step.Drop? || step.Abandon?)
    ensures Counted(s, Next(g, s, step), step, work)
  {
    hide BarrierOf, State.Delivered, Chain.Held, Meets, Folds;
    HeldCounts(s, work);
    HeldCounts(Next(g, s, step), work);
    assert step.Settle? ==> s.cut[step.run] > 0;
    assert step.Send? && About(step) != work.To() ==> Queued(step.flight, false) != work;
  }

  lemma StepCounts(g: RouteGraph, s: Chain, step: Step, work: Queued)
    requires Enabled(g, s, step)
    ensures Counted(s, Next(g, s, step), step, work)
  {
    hide Next, Counted;
    if step.Take? {
      TakeCounts(g, s, step, work);
    } else if step.Finish? || step.Restart? || step.CutOff? {
      RunCounts(g, s, step, work);
    } else {
      QueueCounts(g, s, step, work);
    }
  }

  /** What a step makes of all the work of a chain. */
  ghost function HeldAfter(s: Chain, step: Step): multiset<Queued> {
    match step
    case Send(_, flight) => s.Held() + multiset{Queued(flight, false)}
    case Finish(run) => s.Held() - multiset{run}
    case Settle(run, again) => if again then s.Held() else s.Held() - multiset{run}
    case Drop(work) => s.Held() - multiset{work}
    case Take(work, admitted, kept) =>
      if admitted then s.Held() - multiset{work} + multiset{kept} else s.Held() - multiset{work}
    case _ => s.Held()
  }

  ghost function RunningAfter(s: Chain, step: Step): multiset<Queued> {
    match step
    case Finish(run) => s.running - multiset{run}
    case Restart(run) => s.running - multiset{run}
    case CutOff(run) => s.running - multiset{run}
    case Take(_, admitted, kept) => if admitted then s.running + multiset{kept} else s.running
    case _ => s.running
  }

  lemma TakeConserves(g: RouteGraph, s: Chain, take: Step)
    requires Enabled(g, s, take) && take.Take?
    ensures Next(g, s, take).Held() == HeldAfter(s, take)
  {
    hide BarrierOf, State.Delivered, Meets, Folds;
  }

  lemma RunConserves(g: RouteGraph, s: Chain, step: Step)
    requires Enabled(g, s, step) && (step.Finish? || step.Restart? || step.CutOff?)
    ensures Next(g, s, step).Held() == HeldAfter(s, step)
  {
    hide BarrierOf, State.Delivered, Meets, Folds;
  }

  lemma SettleConserves(g: RouteGraph, s: Chain, step: Step)
    requires Enabled(g, s, step) && step.Settle?
    ensures Next(g, s, step).Held() == HeldAfter(s, step)
  {
    hide BarrierOf, State.Delivered, Meets, Folds;
  }

  lemma QueueConserves(g: RouteGraph, s: Chain, step: Step)
    requires Enabled(g, s, step) && (step.Send? || step.Drop? || step.Abandon?)
    ensures Next(g, s, step).Held() == HeldAfter(s, step)
  {
    hide BarrierOf, State.Delivered, Meets, Folds;
  }

  /** Work is conserved: it comes only from being sent, and goes only when its run finishes, it is dropped, settled
      without a restart, or taken off the queue without becoming a run; a release leaves what it folds into. And a run
      begins only by being admitted. */
  lemma WorkIsConserved(g: RouteGraph, s: Chain, step: Step)
    requires Enabled(g, s, step)
    ensures Next(g, s, step).Held() == HeldAfter(s, step)
    ensures Next(g, s, step).running == RunningAfter(s, step)
  {
    hide BarrierOf, State.Delivered, Meets, Folds, Chain.Held, HeldAfter;
    if step.Take? {
      TakeConserves(g, s, step);
    } else if step.Finish? || step.Restart? || step.CutOff? {
      RunConserves(g, s, step);
    } else if step.Settle? {
      SettleConserves(g, s, step);
    } else {
      QueueConserves(g, s, step);
    }
  }

  lemma SentIsAwaited(g: RouteGraph, s: Chain, step: Step, closed: iset<Agent>)
    requires Enabled(g, s, step) && Closed(g, s, closed) && step.Send? && step.flight.to !in closed
    ensures step.run.To() in closed
    ensures g.Awaits(step.flight.to, step.run.To()) && g.joins[step.flight.to].join.All?
  {
    hide Unmet;
    RunsAreClosed(g, s, closed, step.run);
    assert ShutOut(g, s, closed, step.flight.to);
    assert !g.FreeStep(step.run.To(), step.flight.to);
  }

  /** Work for somebody shut out is never being run, and always waits at its barrier. */
  lemma AllIsAwaited(g: RouteGraph, s: Chain, step: Step, closed: iset<Agent>, work: Queued)
    requires Consistent(g, s) && Enabled(g, s, step) && Closed(g, s, closed)
    requires work.To() !in closed && work in Next(g, s, step).Held()
    ensures work !in Next(g, s, step).running && Awaited(g, work)
    ensures work in s.Held() || step.Send?
  {
    assert ShutOut(g, s, closed, work.To());
    if step.Send? && step.flight.to == work.To() {
      SentIsAwaited(g, s, step, closed);
    } else {
      if step.Take? && step.work.To() == work.To() {
        DeliveredInVain(g, s, step.work, closed);
      }
      StepCounts(g, s, step, work);
    }
  }

  lemma ComingDwindles(g: RouteGraph, s: Chain, step: Step, m: Agent, agent: Agent)
    requires Enabled(g, s, step) && !(step.Send? && step.flight.to == agent)
    requires step.Take? && step.work.To() == agent ==> !step.admitted
    ensures OnItsWay(Next(g, s, step), m, agent) ==> OnItsWay(s, m, agent)
    ensures TwoOnTheirWay(Next(g, s, step), m, agent) ==> TwoOnTheirWay(s, m, agent)
  {
    hide Next, Enabled, Chain.Held;
    var after := Next(g, s, step);
    forall work: Queued | work.To() == agent ensures after.Held()[work] <= s.Held()[work] {
      StepCounts(g, s, step, work);
    }
    if work :| work in after.Held() && work.Bears(m, agent) && Coming(after.Held() - multiset{work}, m, agent) {
      var other :| other in after.Held() - multiset{work} && other.Bears(m, agent);
      assert other in s.Held() - multiset{work};
    }
  }

  lemma BarrierMoves(g: RouteGraph, s: Chain, step: Step, agent: Agent)
    requires Enabled(g, s, step) && agent in g.joins
    ensures BarrierOf(g, Next(g, s, step), agent)
            == if step.Take? && step.work.To() == agent && !step.work.released
               then BarrierOf(g, s, agent).Delivered(step.work.flight).0
               else if step.Abandon? && step.agent == agent then Fresh(g.joins[agent])
               else BarrierOf(g, s, agent)
    ensures step.Abandon? && step.agent == agent ==> !BarrierOf(g, s, agent).released
  {
    hide State.Delivered, Folds;
  }

  lemma TakenIsGone(g: RouteGraph, s: Chain, take: Step, m: Agent)
    requires take.Take? && !take.admitted && Enabled(g, s, take) && take.work.Bears(m, take.work.To())
    ensures OnItsWay(Next(g, s, take), m, take.work.To()) ==> TwoOnTheirWay(s, m, take.work.To())
  {
    hide Folds, State.Delivered;
    assert take.work in s.Held() && Next(g, s, take).Held() == s.Held() - multiset{take.work};
  }

  lemma TakenInVain(g: RouteGraph, s: Chain, take: Step, closed: iset<Agent>)
    requires Consistent(g, s) && take.Take? && Enabled(g, s, take)
    requires Closed(g, s, closed) && take.work.To() !in closed
    ensures !take.admitted && take.work in s.Held() && Awaited(g, take.work) && take.work.To() in g.joins
    ensures var agent, m := take.work.To(), take.work.flight.Sender().value;
            var before, after := BarrierOf(g, s, agent), BarrierOf(g, Next(g, s, take), agent);
            match g.joins[agent].join
            case Any => after.released && after.seen == before.seen + {m}
            case All => forall k :: k in before.Missing() && k != m ==> k in after.Missing()
  {
    DeliveredInVain(g, s, take.work, closed);
    BarrierMoves(g, s, take, take.work.To());
  }

  /** A step leaves an `any` barrier that cannot release so. */
  lemma AnyStaysUnmet(g: RouteGraph, s: Chain, step: Step, closed: iset<Agent>, agent: Agent)
    requires Consistent(g, s) && Enabled(g, s, step) && Closed(g, s, closed) && agent !in closed
    requires agent in g.joins && g.joins[agent].join.Any?
    ensures Unmet(g, Next(g, s, step), closed, agent)
  {
    hide Next, Enabled, OnItsWay, TwoOnTheirWay, BarrierOf, State.Delivered, Consistent;
    var after := Next(g, s, step);
    assert ShutOut(g, s, closed, agent);
    if step.Send? && step.flight.to == agent {
      SentIsAwaited(g, s, step, closed);
      assert false;
    }
    if step.Take? && step.work.To() == agent {
      TakenInVain(g, s, step, closed);
    }
    BarrierMoves(g, s, step, agent);
    forall m | m in g.joins[agent].upstreams && OnItsWay(after, m, agent)
      ensures BarrierOf(g, after, agent).released && m !in BarrierOf(g, after, agent).seen
      ensures !TwoOnTheirWay(after, m, agent)
    {
      ComingDwindles(g, s, step, m, agent);
      if step.Take? && step.work.To() == agent && step.work.Bears(m, agent) {
        TakenIsGone(g, s, step, m);
      }
    }
  }

  /** And an `all` barrier. */
  lemma AllStaysUnmet(g: RouteGraph, s: Chain, step: Step, closed: iset<Agent>, agent: Agent)
    requires Consistent(g, s) && Enabled(g, s, step) && Closed(g, s, closed) && agent !in closed
    requires agent in g.joins && g.joins[agent].join.All? && g.joins[agent].upstreams != {}
    ensures Unmet(g, Next(g, s, step), closed, agent)
  {
    hide Next, Enabled, OnItsWay, TwoOnTheirWay, BarrierOf, State.Delivered, MayCome, Sound;
    assert ShutOut(g, s, closed, agent);
    var b := BarrierOf(g, s, agent);
    BarrierIsSound(g, s, agent);
    var m :| m in b.Missing() && !MayCome(g, s, closed, m, agent);
    MayComeShrinks(g, s, step, closed, m, agent);
    BarrierMoves(g, s, step, agent);
    if step.Take? && step.work.To() == agent {
      TakenInVain(g, s, step, closed);
      MayComeNow(g, s, closed, step.work);
    }
  }

  lemma BarrierIsSound(g: RouteGraph, s: Chain, agent: Agent)
    requires Consistent(g, s) && agent in g.joins
    ensures Sound(g.joins[agent], BarrierOf(g, s, agent))
    ensures BarrierOf(g, s, agent).Missing() == {} ==> g.joins[agent].upstreams == {}
    ensures BarrierOf(g, s, agent).Missing() <= g.joins[agent].upstreams
    ensures Fresh(g.joins[agent]).Missing() == g.joins[agent].upstreams
  {
  }

  lemma MayComeNow(g: RouteGraph, s: Chain, closed: iset<Agent>, work: Queued)
    requires work in s.Held() && Awaited(g, work)
    ensures MayCome(g, s, closed, work.flight.Sender().value, work.To())
  {
    assert work.Bears(work.flight.Sender().value, work.To());
  }

  /** No step wakes anybody whom a closed set shuts out. */
  lemma ClosedStays(g: RouteGraph, s: Chain, step: Step, closed: iset<Agent>)
    requires Consistent(g, s) && Enabled(g, s, step) && Closed(g, s, closed)
    ensures Consistent(g, Next(g, s, step)) && Closed(g, Next(g, s, step), closed)
  {
    hide Next, Enabled, BarrierOf, Unmet, Awaited, Consistent;
    StepsStayConsistent(g, s, step);
    forall agent | agent !in closed ensures ShutOut(g, Next(g, s, step), closed, agent) {
      assert ShutOut(g, s, closed, agent);
      forall work | work in Next(g, s, step).Held() && work.To() == agent
        ensures work !in Next(g, s, step).running && Awaited(g, work)
      {
        AllIsAwaited(g, s, step, closed, work);
      }
      if agent in g.joins {
        StaysUnmet(g, s, step, closed, agent);
      }
    }
  }

  lemma StaysUnmet(g: RouteGraph, s: Chain, step: Step, closed: iset<Agent>, agent: Agent)
    requires Consistent(g, s) && Enabled(g, s, step) && Closed(g, s, closed) && agent !in closed
    requires agent in g.joins
    ensures Unmet(g, Next(g, s, step), closed, agent)
  {
    hide Next, Enabled, Closed, OnItsWay, TwoOnTheirWay, Sound;
    if g.joins[agent].join.Any? {
      AnyStaysUnmet(g, s, step, closed, agent);
    } else if g.joins[agent].upstreams != {} {
      AllStaysUnmet(g, s, step, closed, agent);
    } else {
      StepsStayConsistent(g, s, step);
      BarrierIsSound(g, Next(g, s, step), agent);
    }
  }

  lemma {:induction false} LedStaysClosed(
    g: RouteGraph, s: Chain, steps: seq<Step>, after: Chain, closed: iset<Agent>)
    requires Consistent(g, s) && Closed(g, s, closed) && Led(g, s, steps, after)
    ensures Consistent(g, after) && Closed(g, after, closed)
    decreases |steps|
  {
    hide Enabled, Next, Consistent, Closed;
    if steps != [] {
      ClosedStays(g, s, steps[0], closed);
      LedStaysClosed(g, Next(g, s, steps[0]), steps[1..], after, closed);
    }
  }

  // ----- which barriers cannot release -----

  /** `gone` holds an upstream the barrier cannot do without. */
  predicate Blocked(spec: JoinSpec, b: State, gone: set<Agent>) {
    match spec.join
    case All => exists m :: m in gone && m in spec.upstreams && m !in b.parked
    case Any => spec.upstreams <= gone
  }

  ghost predicate Gone(g: RouteGraph, s: Chain, closed: iset<Agent>, gone: set<Agent>, agent: Agent) {
    forall m :: m in gone ==> !MayCome(g, s, closed, m, agent)
  }

  lemma BlockedDoesNotRelease(spec: JoinSpec, b: State, f: Flight, gone: set<Agent>)
    requires Sound(spec, b) && Blocked(spec, b, gone)
    requires f.Sender().Some? ==> f.Sender().value !in gone
    ensures !b.Delivered(f).1.Ready?
    ensures Blocked(spec, b.Delivered(f).0, gone)
  {
    if b.Names(f) && spec.join.All? {
      var m :| m in gone && m in spec.upstreams && m !in b.parked;
      var begun := if b.Resets(f) then map[] else b.parked;
      var full := begun[f.Sender().value := f];
      assert m !in full;
      FullSet(full.Keys, spec.upstreams);
      assert |full| == |full.Keys|;
    }
  }

  /** One step keeps a blocked barrier blocked, and does not release it. */
  lemma BlockedStep(g: RouteGraph, s: Chain, step: Step, agent: Agent, gone: set<Agent>, closed: iset<Agent>)
    requires agent in g.joins && Consistent(g, s) && Enabled(g, s, step)
    requires Gone(g, s, closed, gone, agent) && Blocked(g.joins[agent], BarrierOf(g, s, agent), gone)
    ensures !Releases(g, s, step, agent)
    ensures Blocked(g.joins[agent], BarrierOf(g, Next(g, s, step), agent), gone)
  {
    hide Next, BarrierOf, State.Delivered, Sound;
    BarrierMoves(g, s, step, agent);
    BarrierIsSound(g, s, agent);
    if step.Take? && step.work.To() == agent && !step.work.released {
      forall m | step.work.flight.Sender() == Some(m) ensures m !in gone {
        assert step.work in s.Held() && step.work.Bears(m, agent);
      }
      BlockedDoesNotRelease(g.joins[agent], BarrierOf(g, s, agent), step.work.flight, gone);
    }
  }

  lemma {:induction false} BlockedForever(
    g: RouteGraph, s: Chain, steps: seq<Step>, agent: Agent, gone: set<Agent>, closed: iset<Agent>)
    requires agent in g.joins && Consistent(g, s) && Closed(g, s, closed)
    requires Gone(g, s, closed, gone, agent) && Blocked(g.joins[agent], BarrierOf(g, s, agent), gone)
    ensures !ReleasedBy(g, s, steps, agent)
    decreases |steps|
  {
    hide Next, BarrierOf, Closed, Consistent, Blocked, Enabled, MayCome, Releases;
    if steps != [] && Enabled(g, s, steps[0]) {
      ClosedStays(g, s, steps[0], closed);
      forall m | m in gone ensures !MayCome(g, Next(g, s, steps[0]), closed, m, agent) {
        MayComeShrinks(g, s, steps[0], closed, m, agent);
      }
      BlockedStep(g, s, steps[0], agent, gone, closed);
      BlockedForever(g, Next(g, s, steps[0]), steps[1..], agent, gone, closed);
    }
  }

  lemma NeverReleases(g: RouteGraph, s: Chain, agent: Agent, gone: set<Agent>, closed: iset<Agent>)
    requires agent in g.joins && Consistent(g, s) && Closed(g, s, closed)
    requires Gone(g, s, closed, gone, agent) && Blocked(g.joins[agent], BarrierOf(g, s, agent), gone)
    ensures !CanRelease(g, s, agent)
  {
    forall steps ensures !ReleasedBy(g, s, steps, agent) {
      BlockedForever(g, s, steps, agent, gone, closed);
    }
  }

  // ----- giving a barrier up is sound -----

  ghost function Reach(g: RouteGraph, live: set<Agent>): iset<Agent> {
    iset a | Reachable(g, false, live, a)
  }

  lemma ReachIsStepClosed(g: RouteGraph, live: set<Agent>)
    ensures forall a :: a in live ==> a in Reach(g, live)
    ensures forall a, b :: a in Reach(g, live) && g.Step(false, a, b) ==> b in Reach(g, live)
  {
    forall a | a in live ensures a in Reach(g, live) {
      assert Walk(g, false, live, a, [a]);
    }
    forall a, b | a in Reach(g, live) && g.Step(false, a, b) ensures b in Reach(g, live) {
      var p :| Walk(g, false, live, a, p);
      WalkExtends(g, false, live, a, p, b);
    }
  }

  /** Nobody out of reach of the chain's own work can be woken. */
  lemma ReachIsClosed(g: RouteGraph, s: Chain, live: set<Agent>)
    requires Consistent(g, s) && s.Own() <= live
    ensures Closed(g, s, Reach(g, live))
  {
    hide BarrierOf, Sound, Reachable;
    ReachIsStepClosed(g, live);
    forall agent | agent !in Reach(g, live) ensures ShutOut(g, s, Reach(g, live), agent) {
      assert forall work :: work in s.Held() ==> work.To() in s.Own();
    }
  }

  /** `live` holds everybody the chain's work is for, and the senders of its flights that may yet be delivered. */
  ghost predicate Covers(live: set<Agent>, s: Chain) {
    && s.Own() <= live
    && forall m, agent :: OnItsWay(s, m, agent) ==> m in live
  }

  /** Abandonment is sound. When the barrier guarding `agent` cannot be satisfied from a set that
      covers everybody who could still act in the chain, no sequence of sends, wakes, restarts, cut-offs, refusals,
      deliveries, releases and resets ever releases it, whether it is kept or given up. */
  lemma AbandonmentIsSound(g: RouteGraph, s: Chain, agent: Agent, live: set<Agent>)
    requires agent in g.joins && Consistent(g, s) && Covers(live, s)
    requires !BarrierOf(g, s, agent).Satisfiable(g, live)
    ensures !CanRelease(g, s, agent)
  {
    hide OnItsWay;
    var b := BarrierOf(g, s, agent);
    ReachIsStepClosed(g, live);
    ReachIsClosed(g, s, live);
    var gone := set m | m in b.Missing() && m !in Reach(g, live);
    if b.join.All? {
      var m :| m in b.Missing() && !Reachable(g, false, live, m);
      assert m in gone;
    }
    NeverReleases(g, s, agent, gone, Reach(g, live));
  }
}
