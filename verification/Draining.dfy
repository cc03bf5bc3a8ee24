/** A Tower winding down: what it may still start, what it starts all the same, and when it is done. */
module Draining {
  import opened Prelude

  /** A rendezvous of one chain, by the agent it joins. */
  datatype Key = Key(chain: nat, to: string)

  /** A flight waiting in the queue, on disk. */
  datatype Queued = Queued(chain: nat, to: string)

  /** What a Tower has in memory, and the queue it takes work from. A flight goes from the queue past the test
      of whether it may start, is only then counted as launching, and ends as a run, at its rendezvous, or
      nowhere. `waiting` holds the rendezvous with an arrival, and who each still waits for. */
  datatype Tower = Tower(
    draining: bool, cuttingOff: bool, queue: multiset<Queued>, passed: multiset<Queued>,
    launching: multiset<Queued>, alive: multiset<Queued>, waiting: map<Key, set<string>>)
  {
    /** Whether it has a run, or a flight past the test that may yet become one. */
    predicate HasWork() {
      alive + passed + launching != multiset{}
    }

    /** The test while it drains: some rendezvous of the flight's chain is parked, and is for its agent or waits
        for it; and nothing passes when runs are being cut off. */
    ghost predicate MayStartWhileDraining(q: Queued) {
      && !cuttingOff
      && exists key :: key in waiting && key.chain == q.chain && (key.to == q.to || q.to in waiting[key])
    }
  }

  /** One step of a Tower. The last three are what another thread tells it. */
  datatype Step =
    | Queue(q: Queued)                        // a schedule, an answer, or a run's send
    | Pass(q: Queued)                         // the dispatcher's test lets it through
    | PutBack(q: Queued)                      // its agent is full, or its workflow is off
    | Count(q: Queued)                        // taken, and counted on its way to becoming a run
    | BecomeRun(q: Queued)
    | Park(q: Queued, missing: set<string>)   // held at its rendezvous instead
    | Release(q: Queued)                      // completes its rendezvous, on its way to becoming a run
    | FallShort(q: Queued)                    // cancelled, too late for its rendezvous, or refused by a rail
    | Abandon(key: Key)
    | RunEnds(q: Queued)
    | StartDraining | StopDraining | CutOff

  ghost predicate Enabled(t: Tower, step: Step) {
    match step
    case Queue(_) => true
    case Pass(q) => q in t.queue && (t.draining ==> t.MayStartWhileDraining(q))
    case PutBack(q) => q in t.passed
    case Count(q) => q in t.passed
    case BecomeRun(q) => q in t.launching
    case Park(q, _) => q in t.launching
    case Release(q) => q in t.launching && Key(q.chain, q.to) in t.waiting
    case FallShort(q) => q in t.launching
    case Abandon(key) => key in t.waiting
    case RunEnds(q) => q in t.alive
    case _ => true
  }

  function Take(t: Tower, step: Step): Tower {
    match step
    case Queue(q) => t.(queue := t.queue + multiset{q})
    case Pass(q) => t.(queue := t.queue - multiset{q}, passed := t.passed + multiset{q})
    case PutBack(q) => t.(passed := t.passed - multiset{q}, queue := t.queue + multiset{q})
    case Count(q) => t.(passed := t.passed - multiset{q}, launching := t.launching + multiset{q})
    case BecomeRun(q) => t.(launching := t.launching - multiset{q}, alive := t.alive + multiset{q})
    case Park(q, missing) =>
      t.(launching := t.launching - multiset{q}, waiting := t.waiting[Key(q.chain, q.to) := missing])
    case Release(q) => t.(waiting := t.waiting - {Key(q.chain, q.to)})
    case FallShort(q) => t.(launching := t.launching - multiset{q})
    case Abandon(key) => t.(waiting := t.waiting - {key})
    case RunEnds(q) => t.(alive := t.alive - multiset{q})
    case StartDraining => t.(draining := true)
    case StopDraining => t.(cuttingOff := false, draining := false)
    case CutOff => t.(draining := true, cuttingOff := true)
  }

  /** All the flights of a Tower, wherever they are, but those parked. */
  ghost function Flights(t: Tower): multiset<Queued> {
    t.queue + t.passed + t.launching + t.alive
  }

  lemma LeavingTakesOne(t: Tower, step: Step)
    requires Enabled(t, step) && (step.Queue? || step.Park? || step.FallShort? || step.RunEnds?)
    ensures Flights(Take(t, step))
            == if step.Queue? then Flights(t) + multiset{step.q} else Flights(t) - multiset{step.q}
  {
    hide Tower.MayStartWhileDraining;
  }

  lemma MovingTakesNone(t: Tower, step: Step)
    requires Enabled(t, step) && (step.Pass? || step.PutBack? || step.Count? || step.BecomeRun?)
    ensures Flights(Take(t, step)) == Flights(t)
  {
    hide Tower.MayStartWhileDraining;
  }

  /** No flight is in two places, and none is gone but by being parked, falling short or its run ending. */
  lemma NoFlightIsLost(t: Tower, step: Step)
    requires Enabled(t, step)
    ensures Flights(Take(t, step))
            == match step
               case Queue(q) => Flights(t) + multiset{q}
               case Park(q, _) => Flights(t) - multiset{q}
               case FallShort(q) => Flights(t) - multiset{q}
               case RunEnds(q) => Flights(t) - multiset{q}
               case _ => Flights(t)
  {
    if step.Queue? || step.Park? || step.FallShort? || step.RunEnds? {
      hide Take, Enabled, Flights;
      LeavingTakesOne(t, step);
    } else if step.Pass? || step.PutBack? || step.Count? || step.BecomeRun? {
      hide Take, Enabled, Flights;
      MovingTakesNone(t, step);
    }
  }

  /** It is queued before it passes the test, counted before it becomes a run, and alive from then until it ends. */
  lemma FlightsMoveOn(t: Tower, step: Step)
    requires Enabled(t, step)
    ensures Take(t, step).queue
            == match step
               case Queue(q) => t.queue + multiset{q}
               case PutBack(q) => t.queue + multiset{q}
               case Pass(q) => t.queue - multiset{q}
               case _ => t.queue
    ensures Take(t, step).alive
            == match step
               case BecomeRun(q) => t.alive + multiset{q}
               case RunEnds(q) => t.alive - multiset{q}
               case _ => t.alive
    ensures Take(t, step).launching
            == match step
               case Count(q) => t.launching + multiset{q}
               case BecomeRun(q) => t.launching - multiset{q}
               case Park(q, _) => t.launching - multiset{q}
               case FallShort(q) => t.launching - multiset{q}
               case _ => t.launching
  {
  }

  /** A rendezvous is held from an arrival parked there until it is completed or given up. */
  lemma RendezvousAreHeld(t: Tower, step: Step)
    requires Enabled(t, step)
    ensures forall key :: key in Take(t, step).waiting
              <==> || (key in t.waiting && step != Abandon(key)
                       && !(step.Release? && key == Key(step.q.chain, step.q.to)))
                   || (step.Park? && key == Key(step.q.chain, step.q.to))
    ensures step.Park? ==> Take(t, step).waiting[Key(step.q.chain, step.q.to)] == step.missing
  {
  }

  ghost predicate Runs(t: Tower, steps: seq<Step>)
    decreases |steps|
  {
    steps == [] || (Enabled(t, steps[0]) && Runs(Take(t, steps[0]), steps[1..]))
  }

  function After(t: Tower, steps: seq<Step>): Tower
    decreases |steps|
  {
    if steps == [] then t else After(Take(t, steps[0]), steps[1..])
  }

  /** A run of the Tower in which nobody tells it to go back to work. */
  ghost predicate Drains(t: Tower, steps: seq<Step>) {
    Runs(t, steps) && StopDraining !in steps
  }

  /** Whether some flight becomes a run. */
  predicate Starts(steps: seq<Step>) {
    exists k :: 0 <= k < |steps| && steps[k].BecomeRun?
  }

  lemma TailDrains(t: Tower, steps: seq<Step>)
    requires Drains(t, steps) && steps != []
    ensures Enabled(t, steps[0]) && steps[0] != StopDraining && Drains(Take(t, steps[0]), steps[1..])
    ensures Starts(steps) <==> steps[0].BecomeRun? || Starts(steps[1..])
    ensures steps == [steps[0]] + steps[1..]
  {
    assert steps[0] in steps && forall step :: step in steps[1..] ==> step in steps;
    assert forall k :: 0 <= k < |steps| - 1 ==> steps[1..][k] == steps[k + 1];
  }

  lemma {:induction false} DrainsThen(t: Tower, first: seq<Step>, second: seq<Step>)
    requires Drains(t, first) && Drains(After(t, first), second)
    ensures Drains(t, first + second) && After(t, first + second) == After(After(t, first), second)
    decreases |first|
  {
    hide Enabled, Take;
    if first == [] {
      assert first + second == second;
    } else {
      TailDrains(t, first);
      assert (first + second)[1..] == first[1..] + second;
      DrainsThen(Take(t, first[0]), first[1..], second);
    }
  }

  // ----- what starts once a drain is over -----

  /** Nothing more can pass the test of a Tower that has nothing parked, or is cutting off. */
  predicate HoldsBack(t: Tower) {
    t.draining && (t.cuttingOff || t.waiting == map[])
  }

  lemma FinishedStep(t: Tower, step: Step)
    requires HoldsBack(t) && t.passed == t.launching == multiset{} && Enabled(t, step) && step != StopDraining
    ensures var after := Take(t, step);
            && HoldsBack(after) && after.passed == after.launching == multiset{}
            && after.alive <= t.alive && after.queue >= t.queue && after.waiting.Keys <= t.waiting.Keys
    ensures !step.Pass? && !step.Count? && !step.BecomeRun?
  {
  }

  /** Once such a Tower has no flight past the test, counted or not, it starts nothing more, whatever is queued
      meanwhile. */
  lemma {:induction false} QuietStaysQuiet(t: Tower, steps: seq<Step>)
    requires HoldsBack(t) && t.passed == t.launching == multiset{} && Drains(t, steps)
    ensures var after := After(t, steps);
            && HoldsBack(after) && after.passed == after.launching == multiset{}
            && after.alive <= t.alive && after.queue >= t.queue && after.waiting.Keys <= t.waiting.Keys
    ensures forall step :: step in steps ==> !step.Pass? && !step.Count? && !step.BecomeRun?
    ensures !Starts(steps)
    decreases |steps|
  {
    hide Enabled, Take, HoldsBack;
    if steps != [] {
      TailDrains(t, steps);
      FinishedStep(t, steps[0]);
      QuietStaysQuiet(Take(t, steps[0]), steps[1..]);
    }
  }

  lemma InHandMoves(t: Tower, step: Step)
    requires Enabled(t, step) && (step.PutBack? || step.Count? || step.BecomeRun?)
    ensures var after := Take(t, step);
            after.passed + after.launching + after.alive <= t.passed + t.launching + t.alive
  {
  }

  lemma InHandEnds(t: Tower, step: Step)
    requires Enabled(t, step) && (step.Park? || step.FallShort? || step.RunEnds?)
    ensures var after := Take(t, step);
            after.passed + after.launching + after.alive <= t.passed + t.launching + t.alive
  {
  }

  lemma CutOffStep(t: Tower, step: Step)
    requires t.draining && t.cuttingOff && Enabled(t, step) && step != StopDraining
    ensures var after := Take(t, step);
            && after.draining && after.cuttingOff && after.passed <= t.passed && !step.Pass?
            && after.passed + after.launching + after.alive <= t.passed + t.launching + t.alive
            && after.queue >= t.queue
  {
    if step.PutBack? || step.Count? || step.BecomeRun? {
      InHandMoves(t, step);
    } else if step.Park? || step.FallShort? || step.RunEnds? {
      InHandEnds(t, step);
    }
  }

  /** Once runs are being cut off nothing more passes the test, even for a rendezvous still parked: what is in
      hand afterwards was in hand, or past the test, before. */
  lemma {:induction false} CutOffOnlyShrinks(t: Tower, steps: seq<Step>)
    requires t.draining && t.cuttingOff && Drains(t, steps)
    ensures var after := After(t, steps);
            && after.draining && after.cuttingOff && after.passed <= t.passed
            && after.passed + after.launching + after.alive <= t.passed + t.launching + t.alive
            && after.queue >= t.queue
    ensures forall step :: step in steps ==> !step.Pass?
    decreases |steps|
  {
    hide Enabled, Take;
    if steps != [] {
      TailDrains(t, steps);
      CutOffStep(t, steps[0]);
      CutOffOnlyShrinks(Take(t, steps[0]), steps[1..]);
    }
  }

  lemma AfterTwo(t: Tower, first: Step, second: Step)
    ensures After(t, [first, second]) == Take(Take(t, first), second)
    ensures Runs(t, [first, second]) <==> Enabled(t, first) && Enabled(Take(t, first), second)
  {
    hide Enabled, Take;
    var next := Take(t, first);
    assert [first, second][1..] == [second] && [second][1..] == [];
    assert After(next, [second]) == After(Take(next, second), []);
    assert Runs(next, [second]) <==> Enabled(next, second) && Runs(Take(next, second), []);
  }

  lemma AfterOne(t: Tower, step: Step)
    ensures After(t, [step]) == Take(t, step)
    ensures Drains(t, [step]) <==> Enabled(t, step) && step != StopDraining
  {
    hide Enabled, Take;
    assert [step][1..] == [] && Runs(Take(t, step), []);
  }

  /** Whatever is past the test, counted or not, can become a run at once. */
  lemma StartsAtOnce(t: Tower, q: Queued) returns (steps: seq<Step>)
    requires q in t.passed + t.launching
    ensures Drains(t, steps) && Starts(steps) && q in After(t, steps).alive
    ensures forall step :: step in steps ==> step.Count? || step.BecomeRun?
  {
    hide Enabled, Take;
    if q in t.launching {
      steps := [BecomeRun(q)];
      AfterOne(t, BecomeRun(q));
      StartsNow(t, q);
      assert steps[0].BecomeRun?;
    } else {
      steps := [Count(q), BecomeRun(q)];
      AfterTwo(t, Count(q), BecomeRun(q));
      CountsNow(t, q);
      StartsNow(Take(t, Count(q)), q);
      assert steps[1].BecomeRun?;
    }
  }

  lemma CountsNow(t: Tower, q: Queued)
    requires q in t.passed
    ensures Enabled(t, Count(q)) && q in Take(t, Count(q)).launching
  {
  }

  lemma StartsNow(t: Tower, q: Queued)
    requires q in t.launching
    ensures Enabled(t, BecomeRun(q)) && q in Take(t, BecomeRun(q)).alive
  {
  }

  /** A draining Tower with nothing parked, or cutting off, starts something more in some run exactly when a flight
      is past the test, counted or not. */
  lemma StartsExactlyWhatIsPast(t: Tower)
    requires HoldsBack(t)
    ensures (exists steps :: Drains(t, steps) && Starts(steps)) <==> t.passed + t.launching != multiset{}
  {
    forall steps | Drains(t, steps) && Starts(steps) ensures t.passed + t.launching != multiset{} {
      if t.passed + t.launching == multiset{} {
        NeitherIsAny(t);
        QuietStaysQuiet(t, steps);
      }
    }
    if t.passed + t.launching != multiset{} {
      var q :| q in t.passed + t.launching;
      var steps := StartsAtOnce(t, q);
    }
  }

  lemma NeitherIsAny(t: Tower)
    requires t.passed + t.launching == multiset{}
    ensures t.passed == t.launching == multiset{}
  {
    forall q ensures t.passed[q] == 0 && t.launching[q] == 0 {
      assert (t.passed + t.launching)[q] == 0;
    }
  }

  // ----- looking whether a drain is over -----

  /** What a Tower asks to find out whether a drain is over: three reads one after another, of the runs alive, of
      the flights counted and of the rendezvous parked, with its other threads' steps `first` and `second` between
      them. No read sees a flight that has passed the test and is not counted yet. */
  ghost predicate LooksQuiet(t: Tower, first: seq<Step>, second: seq<Step>) {
    && Drains(t, first) && Drains(After(t, first), second)
    && t.alive == multiset{} && After(t, first).launching == multiset{}
    && After(After(t, first), second).waiting == map[]
  }

  /** A look that finds a draining Tower quiet can end with a run alive, or one still to come, exactly when its
      first read found a flight past the test, counted or not, or a rendezvous parked that is not being cut off. */
  lemma LooksQuietWithWorkExactlyWhen(t: Tower)
    requires t.draining && t.alive == multiset{}
    ensures (exists first, second :: LooksQuiet(t, first, second) && After(After(t, first), second).HasWork())
            <==> t.passed + t.launching != multiset{} || (t.waiting != map[] && !t.cuttingOff)
  {
    if t.passed + t.launching != multiset{} || (t.waiting != map[] && !t.cuttingOff) {
      var first, second := LooksQuietWithWork(t);
    } else {
      NeitherIsAny(t);
      forall first, second | LooksQuiet(t, first, second) ensures !After(After(t, first), second).HasWork() {
        QuietStaysQuiet(t, first);
        QuietStaysQuiet(After(t, first), second);
      }
    }
  }

  /** Flights counted can all fall short, and rendezvous be given up, without a look noticing. */
  lemma {:induction false} AllFallShort(t: Tower) returns (steps: seq<Step>)
    ensures Drains(t, steps) && After(t, steps) == t.(launching := multiset{})
    decreases |t.launching|
  {
    if t.launching == multiset{} {
      return [];
    }
    var q :| q in t.launching;
    var next := Take(t, FallShort(q));
    var rest := AllFallShort(next);
    AfterOne(t, FallShort(q));
    DrainsThen(t, [FallShort(q)], rest);
    steps := [FallShort(q)] + rest;
  }

  lemma {:induction false} AllAbandoned(t: Tower) returns (steps: seq<Step>)
    ensures Drains(t, steps) && After(t, steps) == t.(waiting := map[])
    decreases |t.waiting|
  {
    if t.waiting == map[] {
      return [];
    }
    var key :| key in t.waiting;
    var next := Take(t, Abandon(key));
    OneFewer(t.waiting, key);
    var rest := AllAbandoned(next);
    AfterOne(t, Abandon(key));
    DrainsThen(t, [Abandon(key)], rest);
    steps := [Abandon(key)] + rest;
  }

  lemma OneFewer(waiting: map<Key, set<string>>, key: Key)
    requires key in waiting
    ensures |waiting - {key}| < |waiting|
  {
    assert (waiting - {key}).Keys == waiting.Keys - {key};
    assert |(waiting - {key}).Keys| == |waiting - {key}| && |waiting.Keys| == |waiting|;
  }

  lemma LooksQuietWithWork(t: Tower) returns (first: seq<Step>, second: seq<Step>)
    requires t.draining && t.alive == multiset{}
    requires t.passed + t.launching != multiset{} || (t.waiting != map[] && !t.cuttingOff)
    ensures LooksQuiet(t, first, second) && After(After(t, first), second).HasWork()
  {
    hide Enabled, Take;
    var begun, begin := t, [];
    if q :| q in t.launching {
      AfterOne(t, BecomeRun(q));
      StartsNow(t, q);
      begin := [BecomeRun(q)];
      begun := After(t, begin);
    }
    var short := AllFallShort(begun);
    DrainsThen(t, begin, short);
    first := begin + short;
    var mid, pass := After(t, first), [];
    if !mid.HasWork() {
      pass := PassesAgain(mid);
    }
    var clear := AllAbandoned(After(mid, pass));
    DrainsThen(mid, pass, clear);
    second := pass + clear;
  }

  /** A flight for a rendezvous still parked is queued, and passes the test. */
  lemma PassesAgain(t: Tower) returns (steps: seq<Step>)
    requires t.draining && t.waiting != map[] && !t.cuttingOff
    ensures Drains(t, steps) && After(t, steps).passed != multiset{}
  {
    var key :| key in t.waiting;
    var q := Queued(key.chain, key.to);
    AfterTwo(t, Queue(q), Pass(q));
    steps := [Queue(q), Pass(q)];
    assert q in After(t, steps).passed;
  }

  /** A flight need only pass the test just before the drain begins. The Tower then looks quiet, nobody moving
      meanwhile, and starts a run. */
  lemma GoneQuietStillStarts(q: Queued)
    ensures var t := Tower(false, false, multiset{q}, multiset{}, multiset{}, multiset{}, map[]);
            var quiet := After(t, [Pass(q), StartDraining]);
            && Runs(t, [Pass(q), StartDraining]) && quiet.draining && LooksQuiet(quiet, [], [])
            && exists steps :: Drains(quiet, steps) && q in After(quiet, steps).alive
  {
    var t := Tower(false, false, multiset{q}, multiset{}, multiset{}, multiset{}, map[]);
    AfterTwo(t, Pass(q), StartDraining);
    var steps := StartsAtOnce(After(t, [Pass(q), StartDraining]), q);
  }

  /** Or a flight counted becomes a run between the first two reads, and the Tower looks quiet with it alive. */
  lemma QuietWithARunAlive(q: Queued)
    ensures var t := Tower(true, false, multiset{}, multiset{}, multiset{q}, multiset{}, map[]);
            LooksQuiet(t, [BecomeRun(q)], []) && q in After(After(t, [BecomeRun(q)]), []).alive
  {
    var t := Tower(true, false, multiset{}, multiset{}, multiset{q}, multiset{}, map[]);
    AfterOne(t, BecomeRun(q));
  }

  lemma PassesThenCounts(t: Tower, q: Queued)
    requires q in t.queue && Key(q.chain, q.to) in t.waiting && !t.cuttingOff
    ensures Enabled(t, Pass(q)) && Enabled(Take(t, Pass(q)), Count(q))
  {
  }

  /** Or the flight a rendezvous waits for passes the test, is counted and completes it between the last two. */
  lemma QuietWithAFlightCounted(q: Queued)
    ensures var t := Tower(true, false, multiset{q}, multiset{}, multiset{}, multiset{}, map[Key(q.chain, q.to) := {}]);
            var quiet := After(t, [Pass(q), Count(q), Release(q)]);
            && LooksQuiet(t, [], [Pass(q), Count(q), Release(q)])
            && quiet.passed == multiset{} && quiet.launching == multiset{q}
  {
    var t := Tower(true, false, multiset{q}, multiset{}, multiset{}, multiset{}, map[Key(q.chain, q.to) := {}]);
    var counted := After(t, [Pass(q), Count(q)]);
    AfterTwo(t, Pass(q), Count(q));
    PassesThenCounts(t, q);
    AfterOne(counted, Release(q));
    DrainsThen(t, [Pass(q), Count(q)], [Release(q)]);
    assert [Pass(q), Count(q)] + [Release(q)] == [Pass(q), Count(q), Release(q)];
  }

  /** A Tower told to go back to work lets any flight pass; and one that drains once more lets pass again what
      completes a rendezvous, whatever was being cut off before. */
  lemma BackToWork(t: Tower, q: Queued)
    ensures q in t.queue ==> Enabled(Take(t, StopDraining), Pass(q))
    ensures q in t.queue && Key(q.chain, q.to) in t.waiting ==>
              Enabled(Take(Take(t, StopDraining), StartDraining), Pass(q))
  {
    var again := Take(Take(t, StopDraining), StartDraining);
    if Key(q.chain, q.to) in t.waiting {
      assert Key(q.chain, q.to) in again.waiting;
    }
  }

  // ----- what a drain starts while it lasts -----

  /** Whether nothing of `chain` is parked, or on its way to being. */
  ghost predicate NothingParked(t: Tower, chain: nat) {
    && (forall key :: key in t.waiting ==> key.chain != chain)
    && (forall q :: q in t.launching || q in t.passed ==> q.chain != chain)
  }

  lemma ParkedStep(t: Tower, step: Step, chain: nat)
    requires t.draining && NothingParked(t, chain) && Enabled(t, step) && step != StopDraining
    ensures Take(t, step).draining && NothingParked(Take(t, step), chain)
    ensures step.Pass? || step.Count? ==> step.q.chain != chain
  {
  }

  /** A chain with nothing parked, past the test or on its way starts nothing more during a drain, however many
      rendezvous other chains have parked. */
  lemma {:induction false} OnlyParkedChainsStart(t: Tower, steps: seq<Step>, chain: nat)
    requires t.draining && NothingParked(t, chain) && Drains(t, steps)
    ensures NothingParked(After(t, steps), chain)
    ensures forall step :: step in steps && (step.Pass? || step.Count?) ==> step.q.chain != chain
    decreases |steps|
  {
    hide Enabled, Take, NothingParked;
    if steps != [] {
      TailDrains(t, steps);
      ParkedStep(t, steps[0], chain);
      OnlyParkedChainsStart(Take(t, steps[0]), steps[1..], chain);
    }
  }

  /** Whatever passes the test during a drain is to complete a rendezvous of its own chain that holds an arrival just
      then: it is for the agent joined, or for one still waited for. */
  lemma {:induction false} PassesOnlyToComplete(t: Tower, steps: seq<Step>, k: nat)
    requires t.draining && Drains(t, steps) && k < |steps| && steps[k].Pass?
    ensures var now, q := After(t, steps[..k]), steps[k].q;
            && !now.cuttingOff && q in now.queue
            && exists key :: key in now.waiting && key.chain == q.chain && (q.to == key.to || q.to in now.waiting[key])
    decreases k
  {
    hide Take;
    TailDrains(t, steps);
    if k > 0 {
      StaysDraining(t, steps[0]);
      assert steps[..k][1..] == steps[1..][..k - 1];
      PassesOnlyToComplete(Take(t, steps[0]), steps[1..], k - 1);
    }
  }

  lemma StaysDraining(t: Tower, step: Step)
    requires t.draining && step != StopDraining
    ensures Take(t, step).draining
  {
  }

  /** Once runs are being cut off, or nothing is parked and nothing past the test, no flight leaves the queue. */
  lemma NothingLeavesTheQueue(t: Tower, steps: seq<Step>)
    requires HoldsBack(t) && (t.cuttingOff || t.passed == t.launching == multiset{}) && Drains(t, steps)
    ensures After(t, steps).queue >= t.queue && forall step :: step in steps ==> !step.Pass?
  {
    if t.cuttingOff {
      CutOffOnlyShrinks(t, steps);
    } else {
      QuietStaysQuiet(t, steps);
    }
  }

  // ----- waiting for quiet -----

  /** What was asked for: the release, and how patiently. */
  datatype Request = Request(version: string, rollback: bool, now: bool, includingManual: bool)

  /** What the Tower sees each time it looks. */
  datatype Look = Look(
    stopAsked: bool, stillOpen: bool, quiescent: bool, windowClosed: bool, waited: nat, manualAlive: bool,
    interrupted: bool)

  datatype Drain = Ready | StopInstead | Abandoned | StillWaiting

  predicate PastDeadline(request: Request, maxDrain: nat, look: Look) {
    look.waited >= if request.now then 0 else maxDrain
  }

  /** Whether a look settles nothing, and the Tower waits to look again. */
  predicate Undecided(request: Request, maxDrain: nat, look: Look) {
    && !look.stopAsked && look.stillOpen && !look.quiescent && !look.windowClosed
    && !PastDeadline(request, maxDrain, look) && !look.interrupted
  }

  /** A drain lasts `maxDrain`, unless it is to be over at once. */
  ghost predicate IsDue(request: Request, maxDrain: nat, look: Look) {
    request.now || look.waited >= maxDrain
  }

  /** Nothing is cut off before that, with the window closed, or that must not be done twice, unless asked for. */
  ghost predicate MayCutOff(request: Request, maxDrain: nat, look: Look) {
    !look.windowClosed && IsDue(request, maxDrain, look) && (look.manualAlive ==> request.includingManual)
  }

  /** What a look, the first that is not undecided, settles. */
  function Settles(request: Request, maxDrain: nat, look: Look): Drain {
    if look.stopAsked then StopInstead
    else if !look.stillOpen then Abandoned
    else if look.quiescent then Ready
    else if look.windowClosed then Abandoned
    else if PastDeadline(request, maxDrain, look) then
      if look.manualAlive && !request.includingManual then Abandoned else Ready
    else if look.interrupted then StopInstead
    else StillWaiting
  }

  function EndOf(request: Request, maxDrain: nat, looks: seq<Look>): Drain {
    if looks == [] then StillWaiting
    else if Undecided(request, maxDrain, looks[0]) then EndOf(request, maxDrain, looks[1..])
    else Settles(request, maxDrain, looks[0])
  }

  predicate FirstDecided(request: Request, maxDrain: nat, looks: seq<Look>, k: nat) {
    && k < |looks| && !Undecided(request, maxDrain, looks[k])
    && forall j :: 0 <= j < k ==> Undecided(request, maxDrain, looks[j])
  }

  /** The Tower is ready to install exactly when the first look to settle anything finds it still asked to,
      and quiet, or at its deadline (at once when asked to be, otherwise once `maxDrain` has been waited) with no
      manual agent alive unless asked for; it goes back to work exactly when that look finds the request gone, the
      window closed or such work still alive at the deadline; and it is still waiting exactly when no look finds
      anything of the kind. */
  lemma {:induction false} HowADrainEnds(request: Request, maxDrain: nat, looks: seq<Look>)
    ensures EndOf(request, maxDrain, looks).Ready?
            <==> exists k: nat :: FirstDecided(request, maxDrain, looks, k)
                   && !looks[k].stopAsked && looks[k].stillOpen
                   && (looks[k].quiescent || MayCutOff(request, maxDrain, looks[k]))
    ensures EndOf(request, maxDrain, looks).StillWaiting?
            <==> forall k :: 0 <= k < |looks| ==>
                   && !IsDue(request, maxDrain, looks[k]) && looks[k].stillOpen && !looks[k].stopAsked
                   && !looks[k].quiescent && !looks[k].windowClosed && !looks[k].interrupted
    ensures EndOf(request, maxDrain, looks).Abandoned?
            <==> exists k: nat :: FirstDecided(request, maxDrain, looks, k) && !looks[k].stopAsked
                   && (!looks[k].stillOpen
                       || (!looks[k].quiescent
                           && (looks[k].windowClosed || (IsDue(request, maxDrain, looks[k])
                                                         && looks[k].manualAlive && !request.includingManual))))
    ensures EndOf(request, maxDrain, looks).StopInstead?
            <==> exists k: nat :: FirstDecided(request, maxDrain, looks, k)
                   && (looks[k].stopAsked
                       || (looks[k].interrupted && looks[k].stillOpen && !looks[k].quiescent && !looks[k].windowClosed
                           && !IsDue(request, maxDrain, looks[k])))
    decreases |looks|
  {
    if looks != [] && Undecided(request, maxDrain, looks[0]) {
      HowADrainEnds(request, maxDrain, looks[1..]);
      forall k: nat | k < |looks| - 1
        ensures FirstDecided(request, maxDrain, looks, k + 1) <==> FirstDecided(request, maxDrain, looks[1..], k)
      {
        LaterDecided(request, maxDrain, looks, k);
      }
      assert !FirstDecided(request, maxDrain, looks, 0);
    } else if looks != [] {
      assert FirstDecided(request, maxDrain, looks, 0);
      assert forall k: nat :: FirstDecided(request, maxDrain, looks, k) ==> k == 0;
    }
  }

  lemma LaterDecided(request: Request, maxDrain: nat, looks: seq<Look>, k: nat)
    requires looks != [] && Undecided(request, maxDrain, looks[0]) && k < |looks| - 1
    ensures FirstDecided(request, maxDrain, looks, k + 1) <==> FirstDecided(request, maxDrain, looks[1..], k)
  {
    if FirstDecided(request, maxDrain, looks[1..], k) {
      assert forall j :: 0 < j < k + 1 ==> looks[j] == looks[1..][j - 1];
    }
    if FirstDecided(request, maxDrain, looks, k + 1) {
      assert forall j :: 0 <= j < k ==> looks[1..][j] == looks[j + 1];
    }
  }

  /** The flags a Tower is told to drain by. */
  class Control {
    var draining: bool
    var cuttingOff: bool

    method StopDraining()
      modifies this
      ensures !draining && !cuttingOff
    {
      cuttingOff, draining := false, false;
    }

    method CutOff()
      modifies this
      ensures draining && cuttingOff
    {
      draining, cuttingOff := true, true;
    }
  }

  /** The polling loop, against `EndOf`. The flag is left down exactly when the install is given up. */
  method DrainFor(control: Control, request: Request, maxDrain: nat, looks: seq<Look>) returns (end: Drain)
    requires !control.cuttingOff
    modifies control
    ensures end == EndOf(request, maxDrain, looks)
    ensures control.draining <==> !end.Abandoned?
    ensures control.cuttingOff
            ==> end.Ready? && (exists k: nat :: FirstDecided(request, maxDrain, looks, k)
                                 && MayCutOff(request, maxDrain, looks[k]) && !looks[k].quiescent)
    ensures end.Ready? && !control.cuttingOff
            ==> exists k: nat :: FirstDecided(request, maxDrain, looks, k) && looks[k].quiescent
  {
    control.draining := true;
    for i := 0 to |looks|
      invariant control.draining && !control.cuttingOff
      invariant forall j :: 0 <= j < i ==> Undecided(request, maxDrain, looks[j])
      invariant EndOf(request, maxDrain, looks[i..]) == EndOf(request, maxDrain, looks)
    {
      var look := looks[i];
      assert looks[i..][0] == look && looks[i..][1..] == looks[i + 1..];
      if look.stopAsked {
        return StopInstead;
      }
      assert !Undecided(request, maxDrain, look) ==> FirstDecided(request, maxDrain, looks, i);
      if !look.stillOpen {
        control.StopDraining();
        return Abandoned;
      }
      if look.quiescent {
        return Ready;
      }
      if look.windowClosed {
        control.StopDraining();
        return Abandoned;
      }
      if PastDeadline(request, maxDrain, look) {
        if look.manualAlive && !request.includingManual {
          control.StopDraining();
          return Abandoned;
        }
        control.CutOff();
        return Ready;
      }
      if look.interrupted {
        return StopInstead;
      }
    }
    return StillWaiting;
  }

  // ----- stopping -----

  datatype Stopped = Drained | WasCutOff | StillStopping

  /** The loop that ends a Tower: it goes quiet first, or is asked to stop now (which `stopAsked` says here) or
      interrupted first. */
  method Stopping(control: Control, now: bool, looks: seq<Look>) returns (how: Stopped)
    modifies control
    ensures control.draining
    ensures how.WasCutOff? ==> control.cuttingOff
    ensures how.Drained?
            <==> !now && (exists k: nat :: k < |looks| && looks[k].quiescent
                            && forall j :: 0 <= j < k ==> !looks[j].stopAsked && !looks[j].interrupted)
    ensures how.StillStopping?
            <==> !now && forall k :: 0 <= k < |looks| ==>
                   !looks[k].quiescent && !looks[k].stopAsked && !looks[k].interrupted
    ensures !how.WasCutOff? ==> control.cuttingOff == old(control.cuttingOff)
  {
    if now {
      control.CutOff();
      return WasCutOff;
    }
    control.draining := true;
    for i := 0 to |looks|
      invariant control.draining && control.cuttingOff == old(control.cuttingOff)
      invariant forall j :: 0 <= j < i ==> !looks[j].stopAsked && !looks[j].interrupted && !looks[j].quiescent
    {
      if looks[i].quiescent {
        return Drained;
      }
      if looks[i].stopAsked || looks[i].interrupted {
        control.CutOff();
        return WasCutOff;
      }
    }
    return StillStopping;
  }
}
