/** Hops, Fuel, the run cap and the spawn generation: the rails that keep a factory from running away. */
module Rails {
  import opened Prelude
  import opened Routes
  import opened Graph
  import opened Barriers
  import opened Chains
  import opened Waking

  type u32 = n: nat | n <= U32_MAX

  datatype Denial = HopsExhausted | FuelExhausted | RunCapReached | SpawnDepthReached(maxGenerations: u32)

  /** A reported cost: what a child process printed may be no number at all. */
  datatype Usd = Finite(amount: real) | NotFinite

  /** The rails of one chain, and what it has spent of them. */
  datatype Account = Account(
    maxHops: u32, budget: real, spent: real, maxRuns: u32, runs: u32, generation: u32)
  {
    predicate FuelExhausted() {
      spent >= budget
    }

    /** Whether a run holding `parentHops` may send, and the hops its flight would carry. */
    function AuthorizeSend(parentHops: u32): Result<u32, Denial> {
      if parentHops == 0 || parentHops - 1 == 0 then Err(Denial.HopsExhausted)
      else if FuelExhausted() then Err(Denial.FuelExhausted)
      else if runs >= maxRuns then Err(Denial.RunCapReached)
      else Ok(parentHops - 1)
    }

    /** A chain spawned from this one: fresh hops, fuel and runs, one generation on, saturating. */
    function Spawn(fuel: real, maxGenerations: u32): Result<Account, Denial> {
      var next: u32 := if generation == U32_MAX then U32_MAX else generation + 1;
      if next > maxGenerations then Err(Denial.SpawnDepthReached(maxGenerations))
      else Ok(Account(maxHops, fuel, 0.0, maxRuns, 0, next))
    }

    function RunStarted(): Result<Account, Denial> {
      if FuelExhausted() then Err(Denial.FuelExhausted)
      else if runs >= maxRuns then Err(Denial.RunCapReached)
      else Ok(this.(runs := runs + 1))
    }

    function Debited(usd: Usd): Account {
      if usd.Finite? && usd.amount > 0.0 then this.(spent := spent + usd.amount) else this
    }
  }

  function Open(maxHops: u32, budget: real, maxRuns: u32): Account {
    Account(maxHops, budget, 0.0, maxRuns, 0, 0)
  }

  class Itinerary {
    const maxHops: u32
    const budget: real
    var spent: real
    const maxRuns: u32
    var runs: u32
    const generation: u32

    ghost function View(): Account
      reads this
    {
      Account(maxHops, budget, spent, maxRuns, runs, generation)
    }

    constructor (maxHops: u32, budget: real, maxRuns: u32)
      ensures View() == Open(maxHops, budget, maxRuns)
    {
      this.maxHops, this.budget, this.spent := maxHops, budget, 0.0;
      this.maxRuns, this.runs, this.generation := maxRuns, 0, 0;
    }

    /** `RunStarted` in place. */
    method RecordRunStarted() returns (denied: Option<Denial>)
      modifies this`runs
      ensures match old(View()).RunStarted()
              case Ok(after) => denied == None && View() == after
              case Err(why) => denied == Some(why) && View() == old(View())
    {
      if spent >= budget {
        return Some(Denial.FuelExhausted);
      }
      if runs >= maxRuns {
        return Some(Denial.RunCapReached);
      }
      runs := runs + 1;
      return None;
    }

    /** Debits reported cost. Negative and non-finite figures are ignored. */
    method DebitFuel(usd: Usd)
      modifies this`spent
      ensures View() == old(View()).Debited(usd)
    {
      match usd
      case Finite(amount) => if amount > 0.0 { spent := spent + amount; }
      case NotFinite =>
    }
  }

  // ----- one chain, whatever is started and whatever costs are reported -----

  datatype Event = Start | Report(usd: Usd)

  function Apply(a: Account, e: Event): Account {
    match e
    case Report(usd) => a.Debited(usd)
    case Start => match a.RunStarted() case Ok(after) => after case Err(_) => a
  }

  function After(a: Account, events: seq<Event>): Account {
    if events == [] then a else Apply(After(a, events[..|events| - 1]), events[|events| - 1])
  }

  /** Whether the event at `k` is a run that was let start. */
  predicate LetStart(a: Account, events: seq<Event>, k: nat)
    requires k < |events|
  {
    events[k].Start? && After(a, events[..k]).RunStarted().Ok?
  }

  function StartsLet(a: Account, events: seq<Event>): nat {
    if events == [] then 0
    else StartsLet(a, events[..|events| - 1])
         + if LetStart(a, events, |events| - 1) then 1 else 0
  }

  /** Whatever is reported, a chain never lets more than its cap of runs start. */
  lemma {:induction false} RunCapHolds(a: Account, events: seq<Event>)
    ensures After(a, events).runs == a.runs + StartsLet(a, events)
    ensures After(a, events).maxRuns == a.maxRuns && After(a, events).budget == a.budget
    ensures a.runs <= a.maxRuns ==> a.runs + StartsLet(a, events) <= a.maxRuns
    ensures After(a, events).spent >= a.spent
    decreases |events|
  {
    if events != [] {
      RunCapHolds(a, events[..|events| - 1]);
    }
  }

  /** And once its fuel is spent it never lets another start: no report gives fuel back. */
  lemma {:induction false} NothingStartsOnceSpent(a: Account, events: seq<Event>, i: nat, k: nat)
    requires i <= k < |events| && After(a, events[..i]).FuelExhausted()
    ensures !LetStart(a, events, k)
  {
    var before := After(a, events[..i]);
    AfterSplits(a, events[..i], events[i..k]);
    assert events[..i] + events[i..k] == events[..k];
    RunCapHolds(before, events[i..k]);
  }

  /** What the finite positive figures among `events` come to. */
  function Reported(events: seq<Event>): real {
    if events == [] then 0.0
    else
      Reported(events[1..])
      + match events[0]
        case Start => 0.0
        case Report(NotFinite) => 0.0
        case Report(Finite(amount)) => if amount > 0.0 then amount else 0.0
  }

  lemma {:induction false} ReportedSnoc(events: seq<Event>, e: Event)
    ensures Reported(events + [e]) == Reported(events) + Reported([e])
    decreases |events|
  {
    if events == [] {
      assert [] + [e] == [e];
    } else {
      assert (events + [e])[1..] == events[1..] + [e];
      ReportedSnoc(events[1..], e);
    }
  }

  /** Fuel is what was reported: a chain has spent exactly that, whatever else happened, and lets a run start exactly
      when that is still below its budget and its cap has room. */
  lemma {:induction false} FuelIsWhatWasReported(a: Account, events: seq<Event>)
    ensures After(a, events).spent == a.spent + Reported(events)
    ensures forall k: nat :: k < |events| ==>
              (LetStart(a, events, k)
               <==> events[k].Start? && a.spent + Reported(events[..k]) < a.budget
                    && a.runs + StartsLet(a, events[..k]) < a.maxRuns)
    decreases |events|
  {
    if events != [] {
      var before, last := events[..|events| - 1], events[|events| - 1];
      assert events == before + [last];
      FuelIsWhatWasReported(a, before);
      ReportedSnoc(before, last);
      forall k: nat | k < |events|
        ensures LetStart(a, events, k)
                <==> events[k].Start? && a.spent + Reported(events[..k]) < a.budget
                     && a.runs + StartsLet(a, events[..k]) < a.maxRuns
      {
        assert k < |before| ==> events[..k] == before[..k] && events[k] == before[k];
        RunCapHolds(a, events[..k]);
      }
    }
  }

  /** So a chain opened with so many hops, so much fuel and so many runs lets a run start while less than that fuel
      is reported and fewer than that many have started, and a line of flights while there are hops for it. */
  lemma OpenedChain(maxHops: u32, budget: real, maxRuns: u32, events: seq<Event>, k: nat, n: nat)
    requires k < |events|
    ensures LetStart(Open(maxHops, budget, maxRuns), events, k)
            <==> events[k].Start? && Reported(events[..k]) < budget
                 && StartsLet(Open(maxHops, budget, maxRuns), events[..k]) < maxRuns
    ensures AdmitAll(Open(maxHops, budget, maxRuns), Open(maxHops, budget, maxRuns).maxHops, n).Ok?
            <==> n == 0 || (0.0 < budget && n < maxHops && n <= maxRuns)
  {
    FuelIsWhatWasReported(Open(maxHops, budget, maxRuns), events);
    AdmitAllExactly(Open(maxHops, budget, maxRuns), maxHops, n);
  }

  /** A send is authorised exactly when the flight would leave a hop and a run could start now, and refused as that
      run would be unless it is for want of hops; the hop it takes is its own. */
  lemma AuthorisedSendsCouldRun(a: Account, hops: u32)
    ensures a.AuthorizeSend(hops).Ok? <==> hops >= 2 && a.RunStarted().Ok?
    ensures a.AuthorizeSend(hops).Ok? ==> a.AuthorizeSend(hops).value == hops - 1
    ensures a.AuthorizeSend(hops).Err? ==>
              a.AuthorizeSend(hops).error == if hops < 2 then Denial.HopsExhausted else a.RunStarted().error
    ensures a.RunStarted().Err? ==>
              a.RunStarted().error == if a.spent >= a.budget then Denial.FuelExhausted else Denial.RunCapReached
  {
  }

  /** A chain spawned is one opened on the same rails with the fuel it is given, but one generation on; and it is
      refused exactly when that is past the limit, the count stopping at its ceiling. */
  lemma SpawnedIsOpened(a: Account, fuel: real, maxGenerations: u32)
    ensures match a.Spawn(fuel, maxGenerations)
            case Ok(child) =>
              && child == Open(a.maxHops, fuel, a.maxRuns).(generation := child.generation)
              && child.generation <= maxGenerations
              && child.generation == Min(a.generation + 1, U32_MAX)
            case Err(why) => why == SpawnDepthReached(maxGenerations) && Min(a.generation + 1, U32_MAX) > maxGenerations
  {
  }

  lemma {:induction false} AfterSplits(a: Account, first: seq<Event>, second: seq<Event>)
    ensures After(a, first + second) == After(After(a, first), second)
    decreases |second|
  {
    if second == [] {
      assert first + second == first;
    } else {
      var n := |second| - 1;
      assert (first + second)[..|first + second| - 1] == first + second[..n];
      AfterSplits(a, first, second[..n]);
    }
  }

  // ----- a causal path of sends and spawns -----

  /** A flight on a causal path: the rails of the chain it belongs to, and the hops it carries. */
  datatype Leg = Leg(chain: Account, hops: u32)

  /** Two accounts of one chain, at different times. */
  predicate SameChain(a: Account, b: Account) {
    a.maxHops == b.maxHops && a.budget == b.budget && a.maxRuns == b.maxRuns && a.generation == b.generation
  }

  ghost predicate Sends(a: Leg, b: Leg) {
    SameChain(a.chain, b.chain)
    && exists now: Account :: SameChain(now, a.chain) && now.AuthorizeSend(a.hops) == Ok(b.hops)
  }

  ghost predicate Spawns(a: Leg, b: Leg, maxGenerations: u32) {
    exists fuel: real, child: Account ::
      a.chain.Spawn(fuel, maxGenerations) == Ok(child) && SameChain(child, b.chain)
      && b.hops == child.maxHops
  }

  ghost predicate CausalPath(path: seq<Leg>, maxGenerations: u32) {
    && |path| > 0 && path[0].chain.generation == 0 && path[0].hops == path[0].chain.maxHops
    && forall i :: 0 <= i < |path| - 1 ==> Causes(path[i], path[i + 1], maxGenerations)
  }

  ghost predicate Causes(a: Leg, b: Leg, maxGenerations: u32) {
    Sends(a, b) || Spawns(a, b, maxGenerations)
  }

  /** Every flight spends from (generations left, hops left), taken lexicographically. */
  lemma EveryLegDescends(a: Leg, b: Leg, maxGenerations: u32)
    requires Causes(a, b, maxGenerations) && maxGenerations < U32_MAX
    requires a.chain.generation <= maxGenerations
    ensures b.chain.generation <= maxGenerations && b.chain.maxHops == a.chain.maxHops
    ensures || maxGenerations - b.chain.generation < maxGenerations - a.chain.generation
            || (b.chain.generation == a.chain.generation && b.hops < a.hops)
    ensures a.chain.generation == b.chain.generation ==> b.hops + 1 == a.hops && b.hops >= 1
    ensures a.chain.generation != b.chain.generation ==>
              b.chain.generation == a.chain.generation + 1 && b.hops == a.chain.maxHops
  {
  }

  /** The most flights a path could still take after `a`, itself included. */
  function Left(a: Leg, maxGenerations: u32): int {
    (maxGenerations - a.chain.generation) * Max(1, a.chain.maxHops) + Max(1, a.hops)
  }

  lemma LeftShrinks(a: Leg, b: Leg, maxGenerations: u32)
    requires Causes(a, b, maxGenerations) && maxGenerations < U32_MAX
    requires a.chain.generation <= maxGenerations
    ensures Left(b, maxGenerations) + 1 <= Left(a, maxGenerations)
  {
    EveryLegDescends(a, b, maxGenerations);
    var h := Max(1, a.chain.maxHops);
    if a.chain.generation != b.chain.generation {
      assert (maxGenerations - b.chain.generation) * h == (maxGenerations - a.chain.generation) * h - h;
    }
  }

  lemma {:induction false} PathIsShort(path: seq<Leg>, maxGenerations: u32)
    requires CausalPath(path, maxGenerations) && maxGenerations < U32_MAX
    ensures path[|path| - 1].chain.generation <= maxGenerations
    ensures path[|path| - 1].chain.maxHops == path[0].chain.maxHops
    ensures |path| - 1 + Left(path[|path| - 1], maxGenerations) <= Left(path[0], maxGenerations)
    decreases |path|
  {
    if |path| > 1 {
      var front := path[..|path| - 1];
      forall i | 0 <= i < |front| - 1 ensures Causes(front[i], front[i + 1], maxGenerations) {
        assert Causes(path[i], path[i + 1], maxGenerations);
      }
      PathIsShort(front, maxGenerations);
      var a, b := path[|path| - 2], path[|path| - 2 + 1];
      assert Causes(a, b, maxGenerations);
      EveryLegDescends(a, b, maxGenerations);
      LeftShrinks(a, b, maxGenerations);
    }
  }

  /** A causal path is at most (max_generations + 1) x max_hops flights long. */
  lemma PathsAreBounded(path: seq<Leg>, maxGenerations: u32)
    requires CausalPath(path, maxGenerations) && maxGenerations < U32_MAX
    ensures |path| <= (maxGenerations + 1) * Max(1, path[0].chain.maxHops)
  {
    PathIsShort(path, maxGenerations);
    var last := path[|path| - 1];
    var h := Max(1, path[0].chain.maxHops);
    assert (maxGenerations - last.chain.generation) * h >= 0;
    assert Left(path[0], maxGenerations) == maxGenerations * h + h;
    assert (maxGenerations + 1) * h == maxGenerations * h + h;
  }

  ghost predicate Bounded(maxHops: u32, maxGenerations: u32, bound: nat) {
    forall path: seq<Leg> :: CausalPath(path, maxGenerations) && path[0].chain.maxHops == maxHops
      ==> |path| <= bound
  }

  /** A chain that spawns a chain that spawns a chain, `n` times over. */
  function SpawnPath(maxHops: u32, n: nat): seq<Leg> {
    seq(n + 1, i requires 0 <= i =>
      Leg(Account(maxHops, 1.0, 0.0, 1, 0, if i <= U32_MAX then i else U32_MAX), maxHops))
  }

  /** Generations bound spawning exactly when the limit is below the counter's own ceiling, where
      counting one more saturates and is never refused. */
  lemma GenerationsBoundUnlessSaturated(maxHops: u32, maxGenerations: u32)
    ensures maxGenerations < U32_MAX <==> exists bound: nat :: Bounded(maxHops, maxGenerations, bound)
  {
    if maxGenerations < U32_MAX {
      var bound := (maxGenerations + 1) * Max(1, maxHops);
      forall path: seq<Leg> | CausalPath(path, maxGenerations) && path[0].chain.maxHops == maxHops
        ensures |path| <= bound
      {
        PathsAreBounded(path, maxGenerations);
      }
      assert bound >= 0;
      assert Bounded(maxHops, maxGenerations, bound);
    } else {
      forall bound: nat ensures !Bounded(maxHops, maxGenerations, bound) {
        var path := SpawnPath(maxHops, bound);
        forall i | 0 <= i < |path| - 1 ensures Causes(path[i], path[i + 1], maxGenerations) {
          var a, b := path[i], path[i + 1];
          assert a.chain.Spawn(1.0, maxGenerations) == Ok(b.chain);
          assert Spawns(a, b, maxGenerations);
        }
        assert CausalPath(path, maxGenerations);
      }
    }
  }

  // ----- hops and graph distance -----

  /** How the Tower admits a flight: authorised against the hops it carries, the trigger's own flight
      like any other, then counted as a run. The run holds what authorising returned. */
  function Admit(a: Account, hops: u32): Result<(Account, u32), Denial> {
    match a.AuthorizeSend(hops)
    case Err(why) => Err(why)
    case Ok(next) =>
      match a.RunStarted()
      case Err(why) => Err(why)
      case Ok(after) => Ok((after, next))
  }

  /** `n` flights one after another, the first carrying `hops`, each sent by the run of the last. */
  function AdmitAll(a: Account, hops: u32, n: nat): Result<(Account, u32), Denial>
    decreases n
  {
    if n == 0 then Ok((a, hops))
    else match Admit(a, hops)
      case Err(why) => Err(why)
      case Ok((after, next)) => AdmitAll(after, next, n - 1)
  }

  lemma {:induction false} AdmitAllExactly(a: Account, hops: u32, n: nat)
    ensures AdmitAll(a, hops, n).Ok?
            <==> n == 0 || (!a.FuelExhausted() && n < hops && a.runs + n <= a.maxRuns)
    ensures AdmitAll(a, hops, n).Ok? ==>
              AdmitAll(a, hops, n).value == (a.(runs := a.runs + n), hops - n)
    decreases n
  {
    if n > 0 && Admit(a, hops).Ok? {
      AdmitAllExactly(Admit(a, hops).value.0, Admit(a, hops).value.1, n - 1);
    }
  }

  /** A run the Tower admitted always holds a hop, so refusing to send for want of one never happens:
      the flight is queued, and refused when it is dispatched. */
  lemma AdmittedRunsHoldAHop(a: Account, hops: u32)
    requires Admit(a, hops).Ok?
    ensures Admit(a, hops).value.1 >= 1
    ensures Admit(a, hops).value.1 == 1 ==> Admit(Admit(a, hops).value.0, 1) == Err(Denial.HopsExhausted)
  {
  }

  /** The rails let `agent` run along some walk from where its chain starts, every flight of it admitted on the
      hops of the run before. */
  ghost predicate AdmittedAlong(g: RouteGraph, sources: set<Agent>, a: Account, agent: Agent) {
    exists p :: Walk(g, false, sources, agent, p) && AdmitAll(a, a.maxHops, |p|).Ok?
  }

  /** And along one on which no flight waits for another, where what the rails let run does run. */
  ghost predicate RunsAlong(g: RouteGraph, sources: set<Agent>, a: Account, agent: Agent) {
    AdmittedAlong(g.Unheld(), sources, a, agent)
  }

  /** What `d` edges from the start need of the rails. */
  predicate Affords(a: Account, d: nat) {
    !a.FuelExhausted() && d + 2 <= a.maxHops && a.runs + d + 1 <= a.maxRuns
  }

  lemma AdmittedByDistance(g: RouteGraph, sources: set<Agent>, a: Account, agent: Agent, d: nat)
    requires Shortest(g, false, sources, agent, d)
    ensures AdmittedAlong(g, sources, a, agent) <==> Affords(a, d)
  {
    if p :| Walk(g, false, sources, agent, p) && AdmitAll(a, a.maxHops, |p|).Ok? {
      AdmitAllExactly(a, a.maxHops, |p|);
    }
    var p :| Walk(g, false, sources, agent, p) && |p| == d + 1;
    AdmitAllExactly(a, a.maxHops, |p|);
  }

  lemma UnheldWalks(g: RouteGraph, sources: set<Agent>, agent: Agent, p: seq<Agent>)
    requires Walk(g.Unheld(), false, sources, agent, p)
    ensures Walk(g, false, sources, agent, p)
  {
    forall i | 0 <= i < |p| - 1 ensures g.Step(false, p[i], p[i + 1]) {
      assert g.Unheld().Step(false, p[i], p[i + 1]);
      UnheldSteps(g, p[i], p[i + 1]);
    }
  }

  /** From a chain whose trigger is waiting, what runs by the rails along such a walk does run, by as many starts as
      the rails let it. */
  lemma RunsAlongRuns(g: RouteGraph, s: Chain, trigger: Queued, a: Account, agent: Agent)
    returns (steps: seq<Step>, after: Chain)
    requires Consistent(g, s) && trigger in s.queue && !Awaited(g, trigger)
    requires RunsAlong(g, {trigger.To()}, a, agent)
    ensures Led(g, s, steps, after) && agent in after.Running()
    ensures AdmitAll(a, a.maxHops, Starts(steps)).Ok?
  {
    hide Consistent, Led, Awaited;
    var p :| Walk(g.Unheld(), false, {trigger.To()}, agent, p) && AdmitAll(a, a.maxHops, |p|).Ok?;
    forall i | 0 <= i < |p| - 1 ensures g.FreeStep(p[i], p[i + 1]) {
      assert g.Unheld().Step(false, p[i], p[i + 1]);
      UnheldSteps(g, p[i], p[i + 1]);
    }
    steps, after := FreeWayStarts(g, s, trigger, p);
  }

  /** Hops agree with graph distance where no flight waits for another: an agent whose nearest such way is `free`
      edges long runs along one exactly when its chain has fuel, `free + 2` hops and `free + 1` runs to spend. And by
      no walk at all, held up or not, do the rails admit it with fewer than its distance `d` needs. */
  lemma HopsAgreeWithDistance(
      g: RouteGraph, sources: set<Agent>, a: Account, agent: Agent, d: nat, free: nat)
    requires Shortest(g, false, sources, agent, d)
    ensures Shortest(g.Unheld(), false, sources, agent, free) ==>
              (RunsAlong(g, sources, a, agent) <==> Affords(a, free)) && d <= free
    ensures AdmittedAlong(g, sources, a, agent) ==> Affords(a, d)
    ensures RunsAlong(g, sources, a, agent) ==> AdmittedAlong(g, sources, a, agent)
  {
    AdmittedByDistance(g, sources, a, agent, d);
    if Shortest(g.Unheld(), false, sources, agent, free) {
      AdmittedByDistance(g.Unheld(), sources, a, agent, free);
      var p :| Walk(g.Unheld(), false, sources, agent, p) && |p| == free + 1;
      UnheldWalks(g, sources, agent, p);
    }
    if p :| Walk(g.Unheld(), false, sources, agent, p) && AdmitAll(a, a.maxHops, |p|).Ok? {
      UnheldWalks(g, sources, agent, p);
    }
  }

  /** What validation warns about: an agent needing more flights than a chain carries. */
  predicate Flagged(distance: nat, maxHops: u32) {
    distance + 1 > maxHops
  }

  /** Validation and dispatch disagree by one hop. No walk gets the rails to admit an agent validation warns
      about, nor one exactly `max_hops` flights away, which it passes; any other, nearest along a way on which no
      flight waits for another, runs when its chain has fuel and runs to spare. */
  lemma ValidationPassesOneTooFar(g: RouteGraph, sources: set<Agent>, a: Account, agent: Agent, d: nat)
    requires Shortest(g, false, sources, agent, d)
    ensures AdmittedAlong(g, sources, a, agent) ==> !Flagged(d, a.maxHops) && d + 1 != a.maxHops
    ensures Shortest(g.Unheld(), false, sources, agent, d)
            && !a.FuelExhausted() && a.runs + d + 1 <= a.maxRuns ==>
              (RunsAlong(g, sources, a, agent) <==> !Flagged(d, a.maxHops) && d + 1 != a.maxHops)
              && (!Flagged(d, a.maxHops) && !RunsAlong(g, sources, a, agent) <==> d + 1 == a.maxHops)
  {
    HopsAgreeWithDistance(g, sources, a, agent, d, d);
  }

  /** The rule as the rail itself states it: the first run holds every hop, and each send is authorised
      against what the sending run holds. */
  function SendAll(a: Account, hops: u32, n: nat): Result<(Account, u32), Denial>
    decreases n
  {
    match a.RunStarted()
    case Err(why) => Err(why)
    case Ok(started) =>
      if n == 0 then Ok((started, hops))
      else match started.AuthorizeSend(hops)
        case Err(why) => Err(why)
        case Ok(next) => SendAll(started, next, n - 1)
  }

  lemma {:induction false} SendAllExactly(a: Account, hops: u32, n: nat)
    ensures SendAll(a, hops, n).Ok?
            <==> !a.FuelExhausted() && (n == 0 || n < hops) && a.runs + n + 1 <= a.maxRuns
    ensures SendAll(a, hops, n).Ok? ==>
              SendAll(a, hops, n).value == (a.(runs := a.runs + n + 1), hops - n)
    decreases n
  {
    if n > 0 && a.RunStarted().Ok? && a.RunStarted().value.AuthorizeSend(hops).Ok? {
      SendAllExactly(a.RunStarted().value, hops - 1, n - 1);
    }
  }

  /** Under that rule, where no flight waits for another, an agent woken by a send is strictly nearer than `max_hops`,
      every agent that near can be woken, and hops fall by one along each edge of the way. */
  lemma SendsReachBelowMaxHops(g: RouteGraph, sources: set<Agent>, a: Account, agent: Agent, d: nat)
    requires Shortest(g.Unheld(), false, sources, agent, d)
    requires !a.FuelExhausted() && a.runs + d + 1 <= a.maxRuns
    ensures (exists p :: Walk(g.Unheld(), false, sources, agent, p) && SendAll(a, a.maxHops, |p| - 1).Ok?)
            <==> d == 0 || d < a.maxHops
    ensures forall p :: Walk(g.Unheld(), false, sources, agent, p) && SendAll(a, a.maxHops, |p| - 1).Ok?
              ==> SendAll(a, a.maxHops, |p| - 1).value.1 == a.maxHops - (|p| - 1)
  {
    var h := g.Unheld();
    forall p | Walk(h, false, sources, agent, p) && SendAll(a, a.maxHops, |p| - 1).Ok?
      ensures SendAll(a, a.maxHops, |p| - 1).value.1 == a.maxHops - (|p| - 1)
      ensures d == 0 || d < a.maxHops
    {
      SendAllExactly(a, a.maxHops, |p| - 1);
    }
    var p :| Walk(h, false, sources, agent, p) && |p| == d + 1;
    SendAllExactly(a, a.maxHops, |p| - 1);
  }

  // ----- what the rails admit and a rendezvous holds -----

  /** Two agents that must both report to a third. */
  function JoinedGraph(): RouteGraph {
    RouteGraph(
      map["a" := {"c"}, "b" := {"c"}], map[], map["c" := JoinSpec({"a", "b"}, Join.All, None)])
  }

  /** A chain that starts at the one agent, and to which nothing leads to the other. */
  function StartedAtA(): Chain {
    Chain(multiset{Queued(Flight("1", Human, "a", "go"), false)}, multiset{}, multiset{}, map[])
  }

  lemma BIsNotReached()
    ensures !Reachable(JoinedGraph(), false, {"a"}, "b")
  {
    forall p ensures !Walk(JoinedGraph(), false, {"a"}, "b", p) {
      if Walk(JoinedGraph(), false, {"a"}, "b", p) {
        ClosedHoldsWalks(JoinedGraph(), false, {"a"}, {"a", "c"}, "b", p);
        assert false;
      }
    }
  }

  lemma CIsNextToA()
    ensures Shortest(JoinedGraph(), false, {"a"}, "c", 1)
  {
    var g := JoinedGraph();
    assert g.Step(false, "a", "c");
    assert Walk(g, false, {"a"}, "c", ["a", "c"]) && |["a", "c"]| == 1 + 1;
    assert "a" != "c" by {
      assert "a"[0] != "c"[0];
    }
  }

  /** The rails admit the third agent, one edge away, and no sequence of steps ever releases it. */
  lemma RailsAdmitWhatAJoinHolds(a: Account)
    requires Affords(a, 1)
    ensures AdmittedAlong(JoinedGraph(), {"a"}, a, "c")
    ensures !CanRelease(JoinedGraph(), StartedAtA(), "c")
  {
    CIsNextToA();
    AdmittedByDistance(JoinedGraph(), {"a"}, a, "c", 1);
    BIsNotReached();
    JoinedIsStuck();
  }

  lemma JoinedIsStuck()
    requires !Reachable(JoinedGraph(), false, {"a"}, "b")
    ensures !CanRelease(JoinedGraph(), StartedAtA(), "c")
  {
    var g, s := JoinedGraph(), StartedAtA();
    assert BarrierOf(g, s, "c").Missing() == {"a", "b"} && "b" in {"a", "b"};
    AbandonmentIsSound(g, s, "c", {"a"});
  }
}
