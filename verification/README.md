# Layover, modelled

Layover is a supervisor that routes messages (flights) between agents, under rails that bound what any
trigger can set in motion. This project models the parts of it where a mistake would be hardest to see,
and proves what they are for. It is one Dafny project: `dafny verify dfyconfig.toml` checks all of it.

What the program does step by step on changing fields, queues or buffers is a class or a method with loops,
proved against a function or a predicate; what the program promises is then proved of that function as
lemmas. What it computes by expressions and recursion is a function.

| file | what it models |
|---|---|
| `Prelude.dfy`, `Text.dfy` | result shapes; splitting, trimming and lines as the standard library does them |
| `Routes.dfy`, `Graph.dfy` | routes and their scopes; building, narrowing and walking the route graph |
| `Barrier.dfy` | a rendezvous barrier as it is delivered to, and the history it stands for |
| `Chain.dfy` | one chain as a step system: live runs, runs cut off, undelivered flights, barriers, restarts, refusals; who can no longer run in it |
| `Waking.dfy` | exactly who can still run in a chain, and exactly which barriers can still release |
| `Abandoning.dfy` | what the dispatcher gives up, against what could still have released |
| `Scope.dfy` | which routes a chain may use over any line of resumed chains |
| `Rails.dfy` | hops, Fuel, the run cap, spawn generations, and how they agree with graph distance |
| `Spawning.dfy` | chains that start chains as the running Tower starts them, and when that ever ends |
| `Paths.dfy`, `Prompt.dfy`, `PromptAgreement.dfy`, `PromptText.dfy`, `PromptFaults.dfy` | path confinement, the prompt checker, the composer, why they agree, what composed text says, and which rejected prompts would have failed |
| `Stream.dfy` | the chunked, resumable transcript reader over a growing file |
| `Upcoming.dfy` | schedule ticks and the shortcut to the tick that collects a layover |
| `Provider.dfy` | the backwards readers that tell a provider's failure from a run's own |
| `Book.dfy`, `Retarget.dfy` | rewriting the links of design documents as book pages |
| `Draining.dfy` | draining, cutting off and stopping a Tower |
| `Updating.dfy`, `Arriving.dfy` | installing a release into a running Tower, and the new Tower's side of it |
| `Answer.dfy` | answering help requests with failing writes |

## What was found

Where the code and its documentation disagree, the model follows the code. Each line names the lemma that
says exactly when what is promised holds, or that it never does.

- The dispatcher gives a barrier up by who is alive and whom waiting flights are for, over all chains
  (`crates/layover-tower/src/dispatcher.rs:383-388`). That leaves out who *sent* a waiting flight; a run that was
  cut off, which is forgotten at once (`crates/layover-tower/src/factory.rs:506-508`) and queued again only when
  the install fails (`crates/layover-cli/src/updating.rs:427-440`); and flights not read when the Tower stops
  (`crates/layover-tower/src/dispatcher.rs:363`) or that cannot be read (`crates/layover-cli/src/tower/mod.rs:282-305`).
  So it can give up a barrier that would have released: `Abandoning.WaitingVerdictIsForgotten`,
  `Abandoning.LiveUpstreamDoesNotSaveIt` and `Abandoning.CutRunIsForgotten` are three such chains, and
  `Abandoning.DispatcherAbandonsExactlyUnless` says when, whatever set it judged by. Giving up is sound from a set that
  holds whom all of the chain's own work is for, cut off and unread work too, and the senders of its flights:
  `Chains.AbandonmentIsSound`.
- Whether a flight may start while the Tower drains is tested at
  `crates/layover-tower/src/dispatcher.rs:420`, and the flight is counted as launching only at line 435, which is
  said to close the gap between queue and run. It does not when the drain begins between the two:
  `Draining.GoneQuietStillStarts`.
- Whether the Tower has gone quiet is three reads one after another, of runs, launches and rendezvous
  (`crates/layover-tower/src/drain.rs:108-117`), and a flight can move on between them:
  `Draining.QuietWithARunAlive`, `Draining.QuietWithAFlightCounted`. A look that says so can leave a run alive or to
  come exactly when its first read came with a flight past the test, or a rendezvous parked:
  `Draining.LooksQuietWithWorkExactlyWhen`, and so it can beside a live successor:
  `Updating.WorksBesideExactlyWhen`.
- Every flight is authorised as a send, the trigger's own included
  (`crates/layover-tower/src/dispatch.rs:148-150`), so an agent `d` edges from the entry runs only when
  `max_hops` is at least `d + 2`. Validation (`crates/layover-core/src/validate/reach.rs:92-95`) and
  `book/src/pipelines.md` say `d + 1`: `Rails.HopsAgreeWithDistance`, `Rails.ValidationPassesOneTooFar`.
- For the same reason a run that was admitted always holds a hop, and the refusal to send for want of one
  (`crates/layover-tower/src/runtime.rs:325`) never happens: `Rails.AdmittedRunsHoldAHop`.
- The Tower never calls `Itinerary::spawn`, which would count generations: it opens a spawned chain on fresh
  rails (`crates/layover-tower/src/runtime.rs:343-352`). What a trigger sets in motion is bounded exactly when
  no chain start comes round again: `Spawning.BoundedExactlyWhenNoStartRecurs`; an agent that spawns itself
  goes on for ever: `Spawning.SelfSpawningNeverEnds`. The generation bound of the rail itself fails when the
  limit is the counter's ceiling, and only then: `Rails.GenerationsBoundUnlessSaturated`.
- A narrowed chain keeps joins whose upstreams may no longer send, and such an `all` barrier never releases:
  `Abandoning.UnsentUpstreamNeverReleases`. A join's `timeout`, documented as a
  last resort for such a barrier (`book/src/configuration.md:453`), is read by nothing that runs: only the
  dispatcher's test ever ends the wait.
- `Route::overlaps` says a global route collides with one that names an empty list of pipelines, which no
  chain can use: `Routes.OverlapIsASharedChain`.
- What the prompt checker rejects need not have failed at run time
  (`crates/layover-core/src/prompt.rs:181-195`): some flags fail exactly when a branch whose conditions can hold
  together is at fault: `PromptFaults.RejectionIsRealExactlyWhenFaulty`.
- A design document under `docs/docs/` is written over the page of one under `docs/`:
  `Retarget.PageIsItsMirror`, `Retarget.PagesCollide`.
- A start that dies, or cannot write, before its record lands is not counted, so an unproved release gets
  three starts and one more for each count lost: `Arriving.StartsAreCounted`, `Arriving.LostCountsNeverEnd`.
- When the previous binary cannot be put back, the rolled-back release goes on starting as though settled:
  `Arriving.RolledBackForGood`. Likewise an install whose record cannot be written carries on with the
  release on disk when putting the binary back fails: `Updating.Machine.HandOver`.
- Undoing an install in place marks the hand-over rolled back without looking whether it was proved healthy
  (`crates/layover-cli/src/updating.rs:399-403`), so it can be both: `Updating.BothVerdictsExactlyWhen`,
  `Updating.ProvedThenUndone`.
- Answering a help request says that both writes happen or neither does; a segment written before the one
  that fails stays answered: `Answering.FailureLeavesTheQueue`. When the undoing fails too, a retry queues
  the work twice unless nothing was left to mark: `Answering.AnswerKeepsSoundExactly`,
  `Answering.UndoLostQueuesTwice`.

## Model

| member | source | states |
|---|---|---|
| `Routes.OverlapIsASharedChain` | crates/layover-core/src/route.rs:119-137 | two routes overlap exactly when some chain may use both, unless one is global and the other names nobody |
| `Routes.SharedPipelinesAreTheCollisions` | crates/layover-core/src/route.rs:141-152 | the shared pipelines are exactly those whose chains may use both routes |
| `Graph.FromRoutes` | crates/layover-core/src/graph.rs:69-106 | the loops build exactly the graph of the routes: its edges, its spawn edges, and for each joined agent the last join declared |
| `Graph.GraphOfPermits` | crates/layover-core/src/graph.rs:69-106 | an edge, or a spawn edge, is in the graph exactly when some route, or some spawn route, draws it |
| `Graph.GraphOfJoins` | crates/layover-core/src/graph.rs:86-104 | an agent waits exactly when some joined route leads to it, for exactly the senders of the last such route, with its join and timeout; and whoever is awaited may send to it |
| `Graph.HoldsIsUnique` | crates/layover-core/src/graph.rs:27-45 | a route map without empty entries is fixed by the pairs it holds |
| `Graph.RestrictedPermits` | crates/layover-core/src/graph.rs:115-136 | narrowing permits exactly what both graphs permit, and keeps spawn edges spawn edges |
| `Graph.DistancesFrom` | crates/layover-core/src/graph.rs:248-281 | on any graph, cycles included, maps exactly the agents reachable without crossing a spawn edge to the length of a shortest path |
| `Graph.ReachableFrom` | crates/layover-core/src/graph.rs:232-237 | exactly the agents reachable without crossing a spawn edge |
| `Graph.WorkflowFromAll` | crates/layover-core/src/graph.rs:196-212 | exactly the closure of the sources over every edge, spawn edges included |
| `Graph.WithinIsInTheWorkflow` | crates/layover-core/src/graph.rs:196-281 | whatever a chain can reach without spawning is part of the workflow |
| `Graph.ReachableTransitive` | crates/layover-core/src/graph.rs:196-281 | what a reachable set reaches was already reachable, spawn edges crossed or not |
| `Scope.MapAgreesWithFiltering` | crates/layover-core/src/scope.rs:103-142 | the precomputed map agrees with filtering the routes afresh, for every pipeline name, declared or not |
| `Scope.PipelinePermits` | crates/layover-core/src/scope.rs:103-142 | an edge is open to a pipeline's chains exactly when a route that applies to it draws it |
| `Scope.LineageIsRemembered` | crates/layover-core/src/scope.rs:58-88 | over any lineage of resumed chains, a scope's pipeline and ancestry are exactly the lineage's pipelines |
| `Scope.LineagePermits` | crates/layover-core/src/scope.rs:146-156 | a chain may use an edge exactly when every pipeline of its lineage permits it; its spawns and joins are its own pipeline's |
| `Scope.PermissionsNeverWiden` | crates/layover-core/src/scope.rs:81-156 | a resumed chain never gains an edge its booking chain could not use |
| `Scope.RepeatsNarrowNoFurther` | crates/layover-core/src/scope.rs:69-88 | two lineages have one scope exactly when they end alike and pass through the same pipelines |
| `Scope.OrderDoesNotMatter` | crates/layover-core/src/scope.rs:146-156 | the narrowed graph is the same whatever order the ancestry is folded in |
| `Barriers.Barrier.Deliver` | crates/layover-core/src/barrier.rs:111-148 | one delivery changes the barrier, and comes to, exactly what its specification says |
| `Barriers.Barrier.IsReachable` | crates/layover-core/src/barrier.rs:171-182 | true exactly when nothing is missing, or all (any) of the missing upstreams can be reached from the live agents |
| `Barriers.DeliveryRefinesHistory` | crates/layover-core/src/barrier.rs:111-148 | after any history, one more delivery comes to what the greedy cut of the history into runs of distinct senders says |
| `Barriers.RunRefinesHistory` | crates/layover-core/src/barrier.rs:111-148 | a whole run of a barrier, state and every outcome, is its history cut into those waves |
| `Barriers.CutIsMaximal` | crates/layover-core/src/barrier.rs:119-123 | a wave ends exactly where a sender would report in it twice |
| `Barriers.ReleaseIsOneWave` | crates/layover-core/src/barrier.rs:134-147 | `all` releases one flight from each upstream, all of the current wave; `any` releases the flight that begins it |
| `Barriers.WokenOncePerWave` | crates/layover-core/src/barrier.rs:126-147 | two releases are always in different waves |
| `Barriers.NoLateUnderAll` | crates/layover-core/src/barrier.rs:126-147 | an `all` barrier drops nothing as late and an `any` barrier parks nothing |
| `Barriers.EveryFlightEndsOnce` | crates/layover-core/src/barrier.rs:45-148 | every flight delivered ends exactly once: direct, released, late, discarded by a reset, or still parked |
| `Chains.StepsStayConsistent` | crates/layover-tower/src/barriers.rs:82-99 | every step of a chain keeps every barrier of it sound |
| `Chains.WorkIsConserved` | crates/layover-tower/src/factory.rs:1049-1089 | a chain's work comes only from sends, and goes only by finishing, being dropped, settled without a restart, or held or lost at a rendezvous; a release leaves what it folds into |
| `Chains.AbandonmentIsSound` | crates/layover-core/src/barrier.rs:162-182 | a barrier that cannot be satisfied from a set covering everybody who could act, cut-off runs and senders included, is never released by any sequence of sends, wakes, restarts, cut-offs, refusals, deliveries, releases and resets |
| `Waking.ReleasesExactlyWhenHeard` | crates/layover-core/src/barrier.rs:111-182 | a waiting barrier can release exactly when each upstream an `all` misses, or one of an `any`, has a flight on its way or can still be woken and may send, each judged alone: neither order nor other barriers on the way make them shut each other out |
| `Waking.RunsExactlyWhenWakeable` | crates/layover-tower/src/factory.rs:1049-1089 | an agent can run by some steps of its chain exactly when it is in every set that holds the running and cannot wake others, through any barriers on the way |
| `Waking.EverybodyWakes` | crates/layover-tower/src/factory.rs:1049-1089 | one and the same run of a chain wakes everybody any run of it can wake |
| `Waking.EnoughReleases` | crates/layover-core/src/barrier.rs:111-148 | when every missing upstream of an `all` barrier has a flight on its way, or one upstream of an `any` that has not released or has heard that upstream in this wave, some steps release it |
| `Waking.FreeWayStarts` | crates/layover-tower/src/factory.rs:1049-1089 | along edges on which no flight waits for another (direct past a join, into an `any`, or from a sole upstream), everybody runs in turn, each by one start |
| `Abandoning.DispatcherAbandonsExactlyUnless` | crates/layover-tower/src/dispatcher.rs:376-390 | a barrier the dispatcher gives up, by whatever set, could have released exactly when every upstream an `all` missed, or one of an `any`, had its flight on its way or could still be woken and might send |
| `Abandoning.WakeableIsBetween` | crates/layover-core/src/barrier.rs:165-182 | whoever can be woken is within reach of the chain's own work, cut off and unread included; whoever work goes straight to can be woken |
| `Abandoning.SatisfiableCanRelease` | crates/layover-core/src/barrier.rs:171-182 | the converse of giving up: a barrier said to be satisfiable from agents with work, along ways on which nothing waits, whose missing upstreams may send, can release, under `all` and under `any` |
| `Abandoning.DispatcherAbandonsSafely` | crates/layover-tower/src/dispatcher.rs:376-390 | giving up an `all` barrier is safe when one missing upstream is out of reach of the chain's own work and has no flight on its way |
| `Abandoning.WaitingVerdictIsForgotten` | crates/layover-tower/src/dispatcher.rs:376-390 | a chain whose last verdict is queued is given up although that verdict would release it |
| `Abandoning.LiveUpstreamDoesNotSaveIt` | crates/layover-tower/src/dispatcher.rs:376-390 | a chain given up with one upstream live and the other's flight queued, both of which would have come |
| `Abandoning.CutRunIsForgotten` | crates/layover-tower/src/factory.rs:504-512 | a chain given up while its last upstream's run is cut off: kept, the barrier could release once the run is settled and restarted, and given up it never does |
| `Abandoning.UnsentUpstreamNeverReleases` | crates/layover-core/src/graph.rs:108-136 | an `all` barrier missing an upstream that may no longer send to its agent is never released |
| `Rails.Itinerary.RecordRunStarted` | crates/layover-core/src/itinerary.rs:149-158 | counts the run or refuses it, fuel before cap, changing nothing when it refuses |
| `Rails.Itinerary.DebitFuel` | crates/layover-core/src/itinerary.rs:164-168 | debits finite positive costs and ignores all others |
| `Rails.RunCapHolds` | crates/layover-core/src/itinerary.rs:149-168 | for any series of starts and cost reports no more runs are let start than the cap, and fuel spent never falls |
| `Rails.NothingStartsOnceSpent` | crates/layover-core/src/itinerary.rs:149-174 | once its fuel is spent a chain never lets another run start, whatever is reported |
| `Rails.FuelIsWhatWasReported` | crates/layover-core/src/itinerary.rs:149-174 | over any events a chain has spent exactly the sum of the finite positive figures reported, and lets a run start exactly when that is below its budget and its cap has room |
| `Rails.OpenedChain` | crates/layover-core/src/itinerary.rs:50-62 | a chain opened with so many hops, fuel and runs starts runs exactly while less than that fuel is reported and fewer have started, and admits a line of flights while there are hops for it |
| `Rails.SpawnedIsOpened` | crates/layover-core/src/itinerary.rs:85-106 | a spawned chain is an opened one with fresh fuel, hops and runs, one generation on, refused exactly past the limit |
| `Rails.AuthorisedSendsCouldRun` | crates/layover-core/src/itinerary.rs:129-141 | a send is authorised exactly when it leaves a hop and a run could start now; otherwise hops are refused first, then fuel, then the cap |
| `Rails.EveryLegDescends` | crates/layover-core/src/itinerary.rs:86-146 | by the rail's own send and spawn, which nothing but its tests calls to spawn, each flight lowers (generations left, hops left) lexicographically |
| `Rails.PathsAreBounded` | crates/layover-core/src/itinerary.rs:86-146 | by that rail, a causal path from one trigger has at most (max_generations + 1) x max(1, max_hops) flights |
| `Rails.GenerationsBoundUnlessSaturated` | crates/layover-core/src/itinerary.rs:86-104 | by that rail, paths are bounded exactly when the generation limit is below the counter's ceiling |
| `Spawning.BoundedExactlyWhenNoStartRecurs` | crates/layover-tower/src/runtime.rs:338-360 | as the Tower spawns, on fresh rails with all their hops, the runs one trigger causes one after another are bounded exactly when no chain start it leads to, through runs its rails admit, comes round again |
| `Spawning.SelfSpawningNeverEnds` | crates/layover-tower/src/runtime.rs:338-360 | an agent that spawns itself, on rails that admit one run, sets no bounded number of runs in motion |
| `Spawning.LineIsAdmitted` | crates/layover-tower/src/dispatch.rs:145-150 | the longest line of runs a chain's rails admit |
| `Rails.AdmitAllExactly` | crates/layover-core/src/itinerary.rs:129-158 | a line of flights passes hops, Fuel and run cap exactly while fuel is left, hops exceed its length and the cap has room |
| `Rails.AdmittedRunsHoldAHop` | crates/layover-tower/src/runtime.rs:322-329 | an admitted run holds at least one hop, and its flight is what is refused when that is its last |
| `Rails.HopsAgreeWithDistance` | crates/layover-tower/src/dispatch.rs:145-150 | along ways on which no flight waits for another, past a join that does not name the sender too, an agent whose nearest such way has d edges runs exactly when its chain has fuel, d + 2 hops and d + 1 runs; and along no walk at all do the rails admit it with less than its distance needs |
| `Rails.RunsAlongRuns` | crates/layover-tower/src/factory.rs:1049-1089 | what the rails let run along such a way does run in the chain, barriers and all, by as many starts as they admit |
| `Rails.RailsAdmitWhatAJoinHolds` | crates/layover-tower/src/factory.rs:1049-1089 | an agent behind a join that the rails admit and no sequence of steps ever releases |
| `Rails.ValidationPassesOneTooFar` | crates/layover-core/src/validate/reach.rs:85-99 | no walk gets an agent admitted that validation warns about, or that is exactly max_hops flights away; of those nearest along a way on which no flight waits for another, with fuel and runs to spare, exactly the ones that far pass validation and never run |
| `Rails.SendsReachBelowMaxHops` | crates/layover-core/src/itinerary.rs:116-146 | by the rail's own rule, sends that wait for no other wake exactly the agents at a distance along such ways below max_hops, hops falling by one per edge |
| `Paths.ConfinePath` | crates/layover-core/src/prompt.rs:402-426 | the loop over components is lexical normalisation that refuses to escape |
| `Paths.ConfineIsNormalisation` | crates/layover-core/src/prompt.rs:396-426 | confining succeeds exactly when no prefix climbs above the root and something remains, and keeps exactly the names nothing later climbs above, in order |
| `Paths.ConfineIsIdempotent` | crates/layover-core/src/prompt.rs:396-426 | a confined path confines to itself, so a file has one canonical path however it is spelled |
| `Prompt.Walk` | crates/layover-core/src/prompt.rs:216-256 | the checker visits every branch as specified and restores its stack, which nests at most eight distinct files |
| `Prompt.Expand` | crates/layover-core/src/prompt.rs:259-313 | the composer appends exactly the specified text and restores its stack, under the same bounds |
| `PromptAgreement.AcceptedPromptsCompose` | crates/layover-core/src/prompt.rs:181-313 | what the checker accepts, the composer composes, for every file source and every flag set declaring the names found, reading at most the files counted |
| `PromptAgreement.TextDependsOnFoundFlags` | crates/layover-core/src/prompt.rs:196-313 | flag sets that agree on the names found compose identical text |
| `PromptAgreement.CarriedFlagsCompose` | crates/layover-core/src/pipeline.rs:339-381 | the flags a declaring pipeline carries always compose, whatever was recorded, and undeclared records change nothing |
| `PromptFaults.RejectionIsRealExactlyWhenFaulty` | crates/layover-core/src/prompt.rs:181-313 | some flags declaring every flag mentioned fail to compose exactly when a branch whose conditions can hold together ends in a fault; a prompt with such a branch is never accepted, and one without composes under all such flags, rejected or not |
| `PromptFaults.UnconditionalRejectionsAreReal` | crates/layover-core/src/prompt.rs:181-313 | without conditions every rejection but one for the number of files is such a fault, and fails for all flags |
| `PromptAgreement.UnconditionalPromptsAgree` | crates/layover-core/src/prompt.rs:181-313 | of prompts without conditions, a rejected one fails to compose for the same reason, unless it was rejected for the number of files, and then it holds more than the limit; an accepted one composes from exactly as many files as were counted |
| `PromptFaults.RejectedMayAlwaysCompose` | crates/layover-core/src/prompt.rs:181-195 | a prompt without such a fault that is rejected and composes under every value of its flag |
| `PromptText.PlainTextStands` | crates/layover-core/src/prompt.rs:281-286 | text that includes nothing composes to itself, line for line |
| `PromptText.LinesSplit` | crates/layover-core/src/prompt.rs:281-309 | a file composes to what its parts compose to, in order |
| `PromptText.IncludesAreDecidedByFlags` | crates/layover-core/src/prompt.rs:287-307 | an include with a condition composes as the same include without one when it holds, as nothing when it does not, and is refused by name when nobody declared its flag |
| `PromptText.IncludingIsSubstituting` | crates/layover-core/src/prompt.rs:259-313 | a file with one include composes to the text before it, what the included file composes to, and the text after it |
| `PromptText.IncludeLeads` | crates/layover-core/src/prompt.rs:388-429 | an include of so many `..` and then names leads from the including file's directory to just that place, and escapes exactly when it climbs out or nothing is left; one from the root always does |
| `PromptText.DottedIncludeLeads` | crates/layover-core/src/prompt.rs:388-429 | `.` and doubled slashes in an include lead nowhere else |
| `PromptText.NestsToEight` | crates/layover-core/src/prompt.rs:216-313 | files each of which includes the next compose, and are accepted, when at most eight and the last includes nothing; the ninth is too deep and coming back is a cycle, for both walkers alike |
| `Text.LinesReadBack` | crates/layover-core/src/prompt.rs:281-286 | lines written with either ending, and what follows the last, are read as those lines |
| `PromptAgreement.DirectiveReadsBack` | crates/layover-core/src/prompt.rs:331-384 | a directive written on a line parses to itself |
| `PromptAgreement.SpelledReadsBack` | crates/layover-core/src/prompt.rs:331-386 | however it is spaced and quoted, a directive parses to its condition and path |
| `PromptAgreement.NotQuiteADirective` | crates/layover-core/src/prompt.rs:331-363 | a line is text exactly when it does not start with the keyword; whatever else is no directive is refused, never taken as text |
| `PromptAgreement.NamesForExample` | crates/layover-core/src/prompt.rs:365-386 | a flag's name is ASCII letters, digits and underscores, none of them a digit first, to both ends of each range |
| `Text.WhitespaceIs` | crates/layover-core/src/prompt.rs:332 | what is trimmed is what Unicode lists as white space, character by character |
| `PromptAgreement.WhatIsRead` | crates/layover-core/src/prompt.rs:331-386 | what is read is a trimmed path, and a named flag exactly when there is a condition |
| `PromptFaults.FoundIsMentioned` | crates/layover-core/src/prompt.rs:181-256 | the flags an accepted prompt is said to need are exactly those some line of it, or of what it includes, tests |
| `Stream.LookFrom` | crates/layover-dashboard/src/stream.rs:134-178 | what a read takes ends a line, the file, or a line too long, and when it reaches the end nothing sendable is left |
| `Stream.Follow.Read` | crates/layover-dashboard/src/stream.rs:134-190 | a read sends whole lines only, advances whenever it sends or reports more, and otherwise has caught up |
| `Stream.FollowToEnd` | crates/layover-dashboard/src/stream.rs:79-190 | when every line fits, any series of reads sends exactly the file's lines, in order, from the first whole one where it began |
| `Stream.ResumingIsSeamless` | crates/layover-dashboard/src/stream.rs:134-190 | resuming from an offset sent loses no line and repeats none |
| `Stream.NeverTooLong` | crates/layover-dashboard/src/stream.rs:40-42 | when every line fits, no read begun anywhere cuts one |
| `Upcoming.Ticks.Next` | crates/layover-dashboard/src/upcoming.rs:294-302 | hands over the next tick and counts the one after from when that one can fire |
| `Upcoming.CollectingTickIsWalked` | crates/layover-dashboard/src/upcoming.rs:308-336 | the shortcut gives the tick the walk gives, for every schedule, held ticks and unsayable results included |
| `Upcoming.WalkToCollecting` | crates/layover-dashboard/src/upcoming.rs:288-336 | walking the iterator to the first tick at or after the due time arrives where the shortcut says |
| `Upcoming.EveryWalks` | crates/layover-dashboard/src/upcoming.rs:325-330 | walking a fixed interval lands where rounding the gap up to whole steps says |
| `Upcoming.IntervalKeepsTime` | crates/layover-core/src/pipeline.rs:98-103 | so many firings of an interval are so many times its seconds later, none counted as one, until that leaves the range |
| `Upcoming.CronWalks` | crates/layover-core/src/pipeline.rs:98-115 | walking any lawful cron schedule lands on its first match at or after the due time |
| `Upcoming.CollectedWhenDue` | crates/layover-dashboard/src/upcoming.rs:304-336 | a layover is collected no earlier than due, unless by a held tick firing now, and never later than a later-due one |
| `Provider.Copilot` | crates/layover-core/src/provider.rs:220-269 | the backwards scan gives what a forward fold gives that resets whenever the run carried on |
| `Provider.DeclaredEvents` | crates/layover-core/src/provider.rs:272-301 | the same, for the events a runner declares |
| `Provider.ReportedWhenLast` | crates/layover-core/src/provider.rs:214-301 | a failure is reported exactly when one follows the last sign that the run carried on |
| `Provider.CarryingOnClears` | crates/layover-core/src/provider.rs:214-301 | nothing before a sign that the run carried on matters, and one appended clears what was found |
| `Provider.FieldsAreTheLatest` | crates/layover-core/src/provider.rs:220-269 | each field is the latest said since then, a failed call's own record speaking only for the failure it led to |
| `Provider.FitsMore` | crates/layover-core/src/provider.rs:315-328 | an event with more fields, inside and out, still fits a shape it fitted |
| `Provider.CopilotSays` | crates/layover-core/src/provider.rs:214-265 | exactly which lines say a run carried on, a call failed, or name a failed call, by what is found in the event |
| `Provider.CopilotGives` | crates/layover-core/src/provider.rs:240-262 | which result, message and id each such line gives |
| `Provider.RefusalIs` | crates/layover-core/src/provider.rs:196-206 | exactly the whole lines that refuse a named model are refusals, and what is said is the line without its first word |
| `Provider.FitsEverywhere` | crates/layover-core/src/provider.rs:315-328 | an event fits a shape exactly when going down any keys of the shape finds the same in the event |
| `Provider.DeclaredSays` | crates/layover-core/src/provider.rs:268-301 | a failure shape decides before a carried-on shape, and the id is the text or number down the declared path |
| `Provider.OneSignEach` | crates/layover-core/src/provider.rs:214-301 | each line is read as one sign, in order |
| `Book.MapLinks` | xtask/src/book.rs:127-173 | writes the line's pieces back, each link with its new target where there is one |
| `Book.NothingToChange` | xtask/src/book.rs:127-173 | with no replacement the line comes back whole |
| `Book.RewrittenReadsBack` | xtask/src/book.rs:127-173 | the line written reads as the same pieces with the new targets, and no other links |
| `Book.RewrittenLinks` | xtask/src/book.rs:127-173 | piece by piece, text stays, and a link keeps its title and takes its new target where there is one |
| `Book.LinksAreRead` | xtask/src/book.rs:127-173 | a link written after text in which none begins is read as its target and title |
| `Book.Rewrite` | xtask/src/book.rs:73-93 | rewrites exactly the lines outside blocks of code, told by counting the fences before each |
| `Book.LinesEndAtFeeds` | xtask/src/book.rs:78-80 | a text is cut exactly after its line feeds, and the lines are the text |
| `Book.FenceIs` | xtask/src/book.rs:81-84 | a fence is three backquotes after nothing but white space |
| `Book.CodeStands` | xtask/src/book.rs:78-91 | fences, and lines with an odd number of fences before them, stay as they are; every other line has its links rewritten |
| `Book.NoLinksNoChange` | xtask/src/book.rs:73-93 | a text with no link to change is its own page |
| `Retarget.NormalisePath` | xtask/src/book.rs:176-188 | the loop over parts is lexical normalisation |
| `Retarget.RelativeLeadsThere` | xtask/src/book.rs:197-204 | resolving `relative(at, to)` from `at` gives back `to`, for all normal paths |
| `Retarget.PageIsItsMirror` | xtask/src/book.rs:73-76 | a document's page is at its own place in the mirror exactly when it is not in `docs/docs/` |
| `Retarget.PagesCollide` | xtask/src/book.rs:38-46 | two documents that are written to one page |
| `Retarget.DesignLinkStands` | xtask/src/book.rs:110-114 | a link left alone inside `docs/` leads from the page to the mirror of what it named exactly when it never climbs above `docs/` |
| `Retarget.BookLinkLeadsThere` | xtask/src/book.rs:115-122 | a link to a book page, retargeted, leads from the mirrored page to the page and anchor it led to from the document |
| `Retarget.RetargetKeepsMeaning` | xtask/src/book.rs:96-125 | where every relative link leads from the page, in each case, against where it led from the document |
| `Retarget.ChangesExactly` | xtask/src/book.rs:96-125 | exactly those links change that name a path, are no address, and lead somewhere in the repository outside `docs/` |
| `Retarget.PageLinksReadBack` | xtask/src/book.rs:73-173 | a line of a real document whose targets hold no parentheses reads back on its page with each target moved and nothing else |
| `Retarget.RewriteDocument` | xtask/src/book.rs:73-93 | a document becomes its page, its links retargeted from its own directory to its page's |
| `Draining.StartsExactlyWhatIsPast` | crates/layover-tower/src/dispatcher.rs:418-435 | a draining Tower with nothing parked, or cutting off, starts something more in some run exactly when a flight is past the test, counted or not |
| `Draining.LooksQuietWithWorkExactlyWhen` | crates/layover-tower/src/drain.rs:108-117 | a look of three reads with the Tower's own steps between them can say quiet with a run alive or to come exactly when its first read came with a flight past the test, or a rendezvous parked and no cutting off |
| `Draining.QuietWithARunAlive` | crates/layover-tower/src/drain.rs:108-117 | a look between whose first two reads a counted flight becomes a run says quiet with that run alive |
| `Draining.QuietWithAFlightCounted` | crates/layover-tower/src/drain.rs:108-117 | a look between whose last two reads a flight is counted and completes its rendezvous says quiet with it still to run, and none past the test uncounted |
| `Draining.GoneQuietStillStarts` | crates/layover-tower/src/dispatcher.rs:418-435 | a run in which the drain begins between a flight's test and its counting, the Tower looks quiet, and the flight becomes a run |
| `Draining.NoFlightIsLost` | crates/layover-tower/src/dispatcher.rs:418-470 | a flight is in one place of a Tower until it is parked, falls short or its run ends |
| `Draining.FlightsMoveOn` | crates/layover-tower/src/dispatcher.rs:418-470 | which steps take a flight from the queue, count it, and make it a run |
| `Draining.RendezvousAreHeld` | crates/layover-tower/src/barriers.rs:138-148 | a rendezvous holds an arrival from its parking until it is completed or given up |
| `Draining.QuietStaysQuiet` | crates/layover-tower/src/drain.rs:112-144 | a draining Tower with nothing parked, or cutting off, and nothing past the test starts nothing in any run, whatever is queued meanwhile |
| `Draining.BackToWork` | crates/layover-tower/src/drain.rs:43-52 | a Tower told to go back to work lets any flight pass, and drains afresh when told to again |
| `Draining.CutOffOnlyShrinks` | crates/layover-tower/src/drain.rs:86-144 | once cutting off, nothing more passes the test, rendezvous still parked or not: what is in hand was in hand or past the test |
| `Draining.OnlyParkedChainsStart` | crates/layover-tower/src/drain.rs:134-144 | while it drains, a chain with nothing parked, past the test or on its way starts nothing more, whatever other chains have parked |
| `Draining.PassesOnlyToComplete` | crates/layover-tower/src/drain.rs:134-144 | whatever passes the test in any run of a drain is for an agent that a parked rendezvous of its chain joins or still waits for, just then |
| `Draining.NothingLeavesTheQueue` | crates/layover-tower/src/drain.rs:134-144 | once cutting off, or with nothing parked and nothing past the test, no flight leaves the queue |
| `Draining.HowADrainEnds` | crates/layover-cli/src/updating.rs:60-179 | exactly when a drain ends ready, gives the install up, stops instead or is still waiting, by the first look to settle anything; its deadline is the given wait, or at once when asked to be |
| `Draining.DrainFor` | crates/layover-cli/src/updating.rs:60-179 | the loop ends as specified; work starts again exactly when the install is given up; it cuts off only past the deadline with nothing manual alive unless asked |
| `Draining.Stopping` | crates/layover-cli/src/stopping.rs:123-153 | a stop drains to quiet exactly when it goes quiet before it is asked to cut off |
| `Updating.Machine.HandOver` | crates/layover-cli/src/updating.rs:206-290 | in every state on the way with the successor alive, this Tower drains, does not hold the factory, and has the release and its record on disk; and exactly how each way of failing ends, what is on disk, who holds the lock and what is reaped |
| `Updating.Install` | crates/layover-cli/src/serving.rs:84-108 | a drain and the install it makes ready: work is held back from the look that ended the drain, quiet or past its deadline, through every state with the successor alive |
| `Updating.StartsBesideExactlyWhatIsPast` | crates/layover-cli/src/updating.rs:206-367 | with work so held back, a Tower starts something beside its live successor, whatever steps it takes between the install's, exactly when a flight was past the dispatcher's test, counted or not, when the drain was over |
| `Updating.WorksBesideExactlyWhen` | crates/layover-cli/src/updating.rs:60-367 | an install whose drain ended by a look that said quiet can have a run of this Tower's beside the successor exactly when the look's first read came with a flight past the test or a rendezvous parked |
| `Updating.BothVerdictsExactlyWhen` | crates/layover-cli/src/updating.rs:389-403 | an install in place leaves its hand-over both healthy and rolled back exactly when the successor proved itself on the record, then failed to answer, and the undoing was recorded |
| `Updating.ProvedThenUndone` | crates/layover-cli/src/updating.rs:389-403 | a successor that proves itself and ends before it is seen to answer leaves both |
| `Updating.Machine.Prepare` | crates/layover-cli/src/updating.rs:224-279 | the release is on disk and recorded exactly when every step there worked; otherwise work starts again, and the old binary is back unless it could not be put back |
| `Updating.Machine.Reap` | crates/layover-cli/src/updating.rs:338-342 | a successor that did not answer is killed and waited for, and what it held is free, before anything is undone |
| `Updating.Machine.InPlace` | crates/layover-cli/src/updating.rs:309-367 | hands over exactly when the successor started and answered, and otherwise kills and waits for it before undoing |
| `Updating.Machine.AwaitAnswer` | crates/layover-cli/src/updating.rs:370-386 | succeeds exactly when the successor answers before it ends, whatever it does to the lock and the record meanwhile |
| `Updating.Machine.Undo` | crates/layover-cli/src/updating.rs:389-424 | the record is rolled back without its token, the version skipped unless it was a rollback, and work starts again |
| `Updating.Machine.TakeBack` | crates/layover-cli/src/updating.rs:427-440 | takes the serving lock back if it can be had and stops draining and cutting off |
| `Updating.SuccessorArgs` | crates/layover-cli/src/updating.rs:477-498 | passes on everything but addresses, then the one address this Tower is bound to |
| `Updating.SuccessorReads` | crates/layover-cli/src/updating.rs:475-498 | what the successor reads is what this Tower read but its addresses, in order, and exactly one address |
| `Updating.AddressesAreDropped` | crates/layover-cli/src/updating.rs:475-498 | an address given in either way is dropped with its value, and everything around it is passed on in order |
| `Updating.HandsOverTheSame` | crates/layover-cli/src/updating.rs:475-498 | handing over twice passes on what handing over once does |
| `Arriving.Factory.Arrive` | crates/layover-cli/src/arriving.rs:58-126 | one start, however far it gets, leaves the disk and the process as specified |
| `Arriving.Factory.Prove` | crates/layover-cli/src/arriving.rs:176-240 | only the version in the record, not rolled back, is recorded as healthy |
| `Arriving.ComesUpExactly` | crates/layover-cli/src/arriving.rs:84-126 | exactly when a start comes up, as which version, and whether proving itself |
| `Arriving.LeavesOnDisk` | crates/layover-cli/src/arriving.rs:84-172 | exactly what a start leaves: an unproved release counts itself or rolls itself back, the version before it rolls it back, and any other start changes nothing |
| `Arriving.ProvesExactly` | crates/layover-cli/src/arriving.rs:176-240 | a proof is recorded exactly when it is written and the record is of the version running and not rolled back, changing nothing else |
| `Arriving.StartsAreCounted` | crates/layover-cli/src/arriving.rs:58-172 | for any series of starts, proofs and deaths, counts on disk and counts lost add up to the unproved starts, and no more than three are ever counted under a supervisor |
| `Arriving.AtMostThreeStarts` | crates/layover-cli/src/arriving.rs:58-172 | when every count lands an unproved release gets at most three starts, and is rolled back by the third |
| `Arriving.ThirdStartOnlyRestores` | crates/layover-cli/src/arriving.rs:84-90 | a start counted third never comes up; it only puts the previous binary back |
| `Arriving.LostCountsNeverEnd` | crates/layover-cli/src/arriving.rs:84-92 | a release whose every start dies before its record lands is started any number of times |
| `Arriving.SettledOnce` | crates/layover-cli/src/arriving.rs:82-112 | a settled hand-over is never settled again, counted or changed on disk by any later start |
| `Arriving.OneVerdict` | crates/layover-cli/src/arriving.rs:82-240 | as long as no install in place is undone, no series of starts, proofs and deaths leaves a hand-over both proved healthy and rolled back |
| `Arriving.RolledBackForGood` | crates/layover-cli/src/arriving.rs:129-172 | after rolling itself back, the release is what every later start runs exactly when its previous binary could not be put back |
| `Arriving.EndsOnOneVersion` | crates/layover-cli/src/arriving.rs:58-172 | when every start lands and can restore, a rolled-back release always leaves the previous version in place, and three unproved starts do that |
| `Answering.Journal.Reply` | crates/layover-store/src/answer.rs:44-127 | one call, with any failing read or write, leaves the queue and the segments as specified |
| `Answering.SuccessClosesTheRun` | crates/layover-store/src/answer.rs:73-127 | a call that queues continues exactly the run's open requests, replies to each where it is with the chain, reports exactly those replies, and leaves every other request as it was |
| `Answering.WhyNothingWasQueued` | crates/layover-store/src/answer.rs:55-92 | unknown exactly when nothing of the run is kept, closed exactly when all of it is dealt with, refused exactly when something is open and cannot be continued |
| `Answering.QueuesExactlyWhen` | crates/layover-store/src/answer.rs:73-127 | a call queues exactly when everything can be read, the queue and each segment of the run's written, the work continued, and something is open |
| `Answering.FailureLeavesTheQueue` | crates/layover-store/src/answer.rs:94-121 | exactly when a call that queues nothing leaves the queue, and every request, as it was |
| `Answering.FailingMarksUpTo` | crates/layover-store/src/answer.rs:103-121 | a call that fails while marking has replied to everything before the first segment it could not write and nothing after, and leaves its flight queued unless that is undone |
| `Answering.AnswerKeepsSoundExactly` | crates/layover-store/src/answer.rs:94-121 | one call keeps every request continued by one flight at most, and none still open continued, exactly when it does not fail while marking, its undoing is written, or nothing it had still to mark is open |
| `Answering.OneContinuationEach` | crates/layover-store/src/answer.rs:44-127 | for any interleaving of calls, and any failing writes they recover from in that sense, no request is ever continued by two flights |
| `Answering.UnrecoveredIsUnsound` | crates/layover-store/src/answer.rs:116-121 | after any such interleaving, the next call keeps that exactly when it recovers |
| `Answering.NothingMoreUntilAskedAgain` | crates/layover-store/src/answer.rs:44-127 | after a success every later call for the run queues nothing until it files a new request |
| `Answering.UndoLostQueuesTwice` | crates/layover-store/src/answer.rs:116-121 | when the undoing is not written, a retry queues a second flight for requests the first already continues |

## Left out

What is abstracted, and so not captured:

- The file system, processes, locks and clocks are parameters that may fail at any step; `swap` is taken to leave the old binary in place when it fails, and `restore` to put it back, leave the new one, or leave neither.
- Cron expressions are any function that gives the least of some set of instants strictly later. Events are parsed JSON values; lines are assumed to name their event as plain text, and the filter that skips lines in which no name is found is not modelled; an event whose name is written with an escape is skipped by it.
- Costs are reals with a value for what is no number; rounding is not modelled.
- The order of `BTreeMap` and `BTreeSet` lists: parked, released and waiting agents are sets and maps, and the reached agents of a walk likewise.
- Text is a sequence of characters, and a transcript a sequence of bytes; replacing invalid UTF-8 is not modelled, nor are Windows path prefixes beyond refusing them.
- Graph depths are unbounded, where the code counts in 32 bits.
- `Stream.Follow.Read`: does not model a file whose length cannot be asked for once it is open, which the code takes to be of length zero, starting over and sending the whole file again; what a viewer has been sent is taken to be no more than the file's length.
- A transcript line longer than 32 MiB is cut by design; what is promised of lines is proved when every line fits, and `Stream.Follow.Read` says what a cut line does. A read of the byte before an offset is taken to succeed when the file can be read.
- `Rails.AdmitAllExactly`: does not model the Ground Stop, the Reserve, or the checks of route, agent and runner that come before the rails; `Spawning.BoundedExactlyWhenNoStartRecurs` leaves them out too, and costs and a chain's other runs, which only end lines sooner.
- `Rails.HopsAgreeWithDistance`: a released join of several arrivals flies on the hops of its first sender, so no distance says what an agent behind one needs; of such agents only what the rails ask is proved here, and `Waking` says exactly which of them can run, rails aside.
- `Abandoning.DispatcherAbandonsExactlyUnless` is about one chain, whose runs no rail stops; which barriers the dispatcher looks at, and in what order, is not modelled.
- In a chain, which runs send, finish, restart, are cut off, settled or refused is any choice the graph allows; run timeouts and recovery policies are choices too.
- `Scope.ForScope` takes the order its ancestry is walked in, and `Scope.OrderDoesNotMatter` shows it is of no account.
- `Updating.SuccessorReads` reads a command line by the rule of the loop that rewrites it: a `--` before the address, or `--addr` as the value of another option, would be read otherwise by the successor.
- `Updating.Machine.HandOver` does not model the held ticks it queues, its log and progress lines, settling the runs that were cut off, or two Towers installing at once.
- `Arriving.Factory.Arrive` does not model the request's progress lines or forgetting the kept binary.
- `Answering.Journal.Reply` takes its locks as held throughout, as they are, and does not model a segment that appears between listing the segments and locking them.
- `Answering.OneContinuationEach` leaves pruning of old segments out: a request pruned is no longer kept.
- `Retarget.RetargetKeepsMeaning` and `Retarget.PageLinksReadBack` are about documents outside `docs/docs/`, whose pages are not at their own place; a link to the mirror's own directory becomes an empty target, which names the page itself rather than the directory.
- `Prompt.Expand` reads files through any function of their canonical path: symbolic links that lead out of the prompt directory, which the real source refuses, are not modelled.

What would add only easy members:

- The HTTP, MCP and event-stream layers, sessions and tokens.
- View mappings, slugs, wire formats, messages and other prose.
- `tools_started`, `min_gap_secs`, recovery and queue decision tables, and the counters of the upcoming-ticks page.
- The learning store, the transcript renderer, release checks, downloads and provenance.
