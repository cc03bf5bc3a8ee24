/** A rendezvous as a state machine, and the history of deliveries it stands for. */
module Barriers {
  import opened Prelude
  import opened Routes
  import opened Graph

  /** Who sent a flight. Only an agent has an upstream edge. */
  datatype Origin = Human | FromAgent(name: Agent) | Schedule(pipeline: Pipeline) | Resumed(layover: string)

  datatype Flight = Flight(id: string, from: Origin, to: Agent, body: string) {
    function Sender(): Option<Agent> {
      if from.FromAgent? then Some(from.name) else None
    }
  }

  /** What `Delivered` answers. */
  datatype Delivery =
    | Parked(waitingFor: set<Agent>)
    | Ready(flights: map<Agent, Flight>)
    | Direct(flight: Flight)
    | Late(flight: Flight)

  /** What a barrier holds. `seen` is who has arrived in this wave, parked or already released. */
  datatype State = State(
    required: set<Agent>, join: Join, parked: map<Agent, Flight>, seen: set<Agent>, released: bool)
  {
    predicate Names(flight: Flight) {
      flight.Sender().Some? && flight.Sender().value in required
    }

    /** Whether `flight` comes from somebody already seen, so that what is parked is swept first. */
    predicate Resets(flight: Flight) {
      Names(flight) && flight.Sender().value in seen
    }

    function Missing(): set<Agent> {
      required - parked.Keys
    }

    /** What a delivery does to the barrier, and what it comes to. */
    function Delivered(flight: Flight): (State, Delivery) {
      if !Names(flight) then (this, Direct(flight))
      else
        var sender := flight.Sender().value;
        var begun := if Resets(flight) then this.(parked := map[], seen := {}, released := false) else this;
        var heard := begun.(seen := begun.seen + {sender});
        if heard.released then (heard, Late(flight))
        else
          var full := heard.parked[sender := flight];
          if join.Any? || |full| == |required|
          then (heard.(parked := map[], released := true), Ready(full))
          else (heard.(parked := full), Parked(required - full.Keys))
    }

    /** Whether a run of one of `live` could still satisfy this barrier, as the barrier judges it. */
    ghost predicate Satisfiable(graph: RouteGraph, live: set<Agent>) {
      || Missing() == {}
      || (join.All? && forall m :: m in Missing() ==> Reachable(graph, false, live, m))
      || (join.Any? && exists m :: m in Missing() && Reachable(graph, false, live, m))
    }
  }

  function Fresh(spec: JoinSpec): State {
    State(spec.upstreams, spec.join, map[], {}, false)
  }

  /** `State` on fields that `Deliver` changes in place. */
  class Barrier {
    const required: set<Agent>
    const join: Join
    var parked: map<Agent, Flight>
    var seen: set<Agent>
    var released: bool

    ghost function View(): State
      reads this
    {
      State(required, join, parked, seen, released)
    }

    constructor FromSpec(spec: JoinSpec)
      ensures View() == Fresh(spec)
    {
      required, join := spec.upstreams, spec.join;
      parked, seen, released := map[], {}, false;
    }

    method Deliver(flight: Flight) returns (outcome: Delivery)
      modifies this
      ensures (View(), outcome) == old(View()).Delivered(flight)
    {
      var from := flight.Sender();
      if from.None? || from.value !in required {
        return Direct(flight);
      }
      var sender := from.value;
      if sender in seen {
        parked := map[];
        seen := {};
        released := false;
      }
      seen := seen + {sender};
      if released {
        return Late(flight);
      }
      parked := parked[sender := flight];
      var complete := match join case Any => true case All => |parked| == |required|;
      if complete {
        released := true;
        outcome := Ready(parked);
        parked := map[];
      } else {
        var missing := WaitingFor();
        outcome := Parked(missing);
      }
    }

    method WaitingFor() returns (missing: set<Agent>)
      ensures missing == View().Missing()
    {
      missing := set name | name in required && name !in parked;
    }

    method IsReachable(graph: RouteGraph, live: seq<Agent>) returns (reachable: bool)
      ensures reachable <==> View().Satisfiable(graph, Elements(live))
    {
      var missing := WaitingFor();
      if missing == {} {
        return true;
      }
      var reached := ReachableFrom(graph, live);
      match join
      case All => reachable := missing <= reached;
      case Any =>
        reachable := missing * reached != {};
        if reachable { var m :| m in missing * reached; }
        if m :| m in missing && m in reached { assert m in missing * reached; }
    }
  }

  // ----- what a history of deliveries comes to, without the state -----

  predicate FromRequired(required: set<Agent>, f: Flight) {
    f.Sender().Some? && f.Sender().value in required
  }

  /** The deliveries the barrier speaks for, in order. */
  function Relevant(required: set<Agent>, history: seq<Flight>): (kept: seq<Flight>)
    ensures forall f :: f in kept <==> f in history && FromRequired(required, f)
  {
    if history == [] then []
    else
      var last := history[|history| - 1];
      Relevant(required, history[..|history| - 1]) + if FromRequired(required, last) then [last] else []
  }

  predicate DistinctSenders(w: seq<Flight>) {
    forall i, j :: 0 <= i < j < |w| ==> w[i].from != w[j].from
  }

  /** The length of the longest prefix of `r` in which nobody reports twice, known to be `n` or more. */
  function Cut(r: seq<Flight>, n: nat): (cut: nat)
    requires n <= |r|
    ensures n <= cut <= |r|
    decreases |r| - n
  {
    if n < |r| && DistinctSenders(r[..n + 1]) then Cut(r, n + 1) else n
  }

  /** The cut is where it is said to be: nobody twice before it, somebody twice one further on. */
  lemma {:induction false} CutIsMaximal(r: seq<Flight>, n: nat)
    requires n <= |r| && DistinctSenders(r[..n])
    ensures DistinctSenders(r[..Cut(r, n)])
    ensures Cut(r, n) < |r| ==> !DistinctSenders(r[..Cut(r, n) + 1])
    decreases |r| - n
  {
    if n < |r| && DistinctSenders(r[..n + 1]) {
      CutIsMaximal(r, n + 1);
    }
  }

  /** The dispatch waves: deliveries cut greedily into maximal runs of distinct senders. */
  function Waves(r: seq<Flight>): (waves: seq<seq<Flight>>)
    ensures r == [] <==> waves == []
    decreases |r|
  {
    if r == [] then []
    else
      var n := Cut(r, 1);
      [r[..n]] + Waves(r[n..])
  }

  function LastWave(r: seq<Flight>): seq<Flight> {
    var waves := Waves(r);
    if waves == [] then [] else waves[|waves| - 1]
  }

  function Current(required: set<Agent>, history: seq<Flight>): seq<Flight> {
    LastWave(Relevant(required, history))
  }

  function WaveNumber(required: set<Agent>, history: seq<Flight>): nat {
    |Waves(Relevant(required, history))|
  }

  ghost predicate AllFrom(required: set<Agent>, w: seq<Flight>) {
    forall f :: f in w ==> FromRequired(required, f)
  }

  function SendersOf(w: seq<Flight>): set<Agent> {
    set f | f in w && f.from.FromAgent? :: f.from.name
  }

  /** The flights of a wave, by who sent each. */
  function BySender(w: seq<Flight>): (m: map<Agent, Flight>)
    ensures m.Keys == SendersOf(w)
    ensures forall a :: a in m ==> m[a] in w && m[a].from == FromAgent(a)
  {
    if w == [] then map[]
    else
      var last := w[|w| - 1];
      assert w == w[..|w| - 1] + [last];
      if last.from.FromAgent? then BySender(w[..|w| - 1])[last.from.name := last]
      else BySender(w[..|w| - 1])
  }

  /** What a barrier holds when `w` is what has arrived in the current wave. */
  function Holding(spec: JoinSpec, w: seq<Flight>): State {
    var released := w != [] && (spec.join.Any? || SendersOf(w) == spec.upstreams);
    State(spec.upstreams, spec.join, if released then map[] else BySender(w), SendersOf(w), released)
  }

  /** What the last delivery of the wave `w` comes to. */
  function Comes(spec: JoinSpec, w: seq<Flight>, f: Flight): Delivery
    requires FromRequired(spec.upstreams, f)
  {
    match spec.join
    case Any => if |w| == 1 then Ready(map[f.from.name := f]) else Late(f)
    case All => if SendersOf(w) == spec.upstreams then Ready(BySender(w))
                else Parked(spec.upstreams - SendersOf(w))
  }

  /** What the barrier holds after `history`, said in terms of its last wave alone. */
  function StateAfter(spec: JoinSpec, history: seq<Flight>): State {
    Holding(spec, Current(spec.upstreams, history))
  }

  /** What delivering `f` after `history` comes to, said in terms of the wave it falls in alone. */
  function Outcome(spec: JoinSpec, history: seq<Flight>, f: Flight): Delivery {
    if !FromRequired(spec.upstreams, f) then Direct(f)
    else Comes(spec, Current(spec.upstreams, history + [f]), f)
  }

  lemma RelevantSnoc(required: set<Agent>, history: seq<Flight>, f: Flight)
    ensures Relevant(required, history + [f])
            == if FromRequired(required, f) then Relevant(required, history) + [f]
               else Relevant(required, history)
  {
    assert (history + [f])[..|history + [f]| - 1] == history;
  }

  lemma {:induction false} CutOfLonger(r: seq<Flight>, f: Flight, n: nat)
    requires n <= |r|
    ensures Cut(r, n) < |r| ==> Cut(r + [f], n) == Cut(r, n)
    ensures Cut(r, n) == |r| && !DistinctSenders(r + [f]) ==> Cut(r + [f], n) == |r|
    decreases |r| - n
  {
    assert n < |r| ==> (r + [f])[..n + 1] == r[..n + 1];
    assert n == |r| ==> (r + [f])[..n + 1] == r + [f];
    if n < |r| && DistinctSenders(r[..n + 1]) {
      CutOfLonger(r, f, n + 1);
    }
  }

  lemma {:induction false} CutOfDistinct(r: seq<Flight>, n: nat)
    requires n <= |r| && DistinctSenders(r)
    ensures Cut(r, n) == |r|
    decreases |r| - n
  {
    if n < |r| {
      CutOfDistinct(r, n + 1);
    }
  }

  predicate Reported(w: seq<Flight>, f: Flight) {
    exists g :: g in w && g.from == f.from
  }

  lemma WholeWave(r: seq<Flight>)
    requires r != [] && DistinctSenders(r)
    ensures Waves(r) == [r] && LastWave(r) == r
  {
    CutOfDistinct(r, 1);
    assert r[..|r|] == r && r[|r|..] == [];
  }

  lemma WavesUnfold(r: seq<Flight>, n: nat)
    requires r != [] && n == Cut(r, 1)
    ensures Waves(r) == [r[..n]] + Waves(r[n..])
  {
  }

  /** A delivery beyond the first wave leaves that wave as it was cut. */
  lemma FirstWaveStands(r: seq<Flight>, f: Flight, n: nat, rest: seq<Flight>)
    requires r != [] && n == Cut(r, 1) < |r| && rest == r[n..]
    ensures Waves(r + [f]) == [r[..n]] + Waves(rest + [f])
    ensures Waves(r) == [r[..n]] + Waves(rest)
  {
    CutOfLonger(r, f, 1);
    assert (r + [f])[..n] == r[..n] && (r + [f])[n..] == rest + [f];
    WavesUnfold(r, n);
    WavesUnfold(r + [f], n);
  }

  lemma OnlyWaveSnoc(r: seq<Flight>, f: Flight)
    requires r != [] && DistinctSenders(r)
    ensures Waves(r + [f]) == if Reported(r, f) then [r, [f]] else [r + [f]]
  {
    WholeWave([f]);
    if Reported(r, f) {
      var k :| 0 <= k < |r| && r[k].from == f.from;
      assert (r + [f])[k].from == (r + [f])[|r|].from;
      WholeWave(r);
      assert r[..|r|] == r;
      CutOfLonger(r, f, 1);
      assert (r + [f])[..|r|] == r && (r + [f])[|r|..] == [f];
    } else {
      WholeWave(r + [f]);
    }
  }

  /** One more delivery either lengthens the last wave or, from somebody already in it, starts one. */
  lemma {:induction false} WavesSnoc(r: seq<Flight>, f: Flight)
    ensures Waves(r + [f]) == if r == [] || Reported(LastWave(r), f)
                              then Waves(r) + [[f]]
                              else Waves(r)[..|Waves(r)| - 1] + [LastWave(r) + [f]]
    decreases |r|
  {
    if r == [] {
      assert r + [f] == [f];
      WholeWave([f]);
    } else if Cut(r, 1) < |r| {
      var n := Cut(r, 1);
      FirstWaveStands(r, f, n, r[n..]);
      WavesSnoc(r[n..], f);
    } else {
      CutIsMaximal(r, 1);
      assert r[..|r|] == r;
      WholeWave(r);
      OnlyWaveSnoc(r, f);
    }
  }

  lemma {:induction false} LastWaveIsOneWave(r: seq<Flight>)
    ensures DistinctSenders(LastWave(r))
    ensures forall f :: f in LastWave(r) ==> f in r
    ensures r != [] ==> LastWave(r) != []
    decreases |r|
  {
    if r != [] {
      var n := Cut(r, 1);
      CutIsMaximal(r, 1);
      if n < |r| {
        LastWaveIsOneWave(r[n..]);
        assert LastWave(r) == LastWave(r[n..]);
      } else {
        assert LastWave(r) == r[..n];
      }
    }
  }

  /** How the current wave moves on with one delivery the barrier speaks for. */
  lemma CurrentSnoc(required: set<Agent>, history: seq<Flight>, f: Flight)
    requires FromRequired(required, f)
    ensures var w := Current(required, history);
            Current(required, history + [f]) == if f.from.name in SendersOf(w) then [f] else w + [f]
    ensures WaveNumber(required, history + [f])
            == WaveNumber(required, history)
               + if Current(required, history) == [] || f.from.name in SendersOf(Current(required, history))
                 then 1 else 0
  {
    RelevantSnoc(required, history, f);
    var r := Relevant(required, history);
    WavesSnoc(r, f);
    LastWaveIsOneWave(r);
    var w := LastWave(r);
    if f.from.name in SendersOf(w) {
      var g :| g in w && g.from.FromAgent? && g.from.name == f.from.name;
      assert g.from == f.from;
    }
    assert f.from.name in SendersOf(w) <==> Reported(w, f);
  }

  lemma BySenderSnoc(w: seq<Flight>, f: Flight)
    requires f.from.FromAgent?
    ensures BySender(w + [f]) == BySender(w)[f.from.name := f]
    ensures SendersOf(w + [f]) == SendersOf(w) + {f.from.name}
  {
    assert (w + [f])[..|w + [f]| - 1] == w;
  }

  /** The current wave: only upstreams the barrier names, each at most once. */
  lemma CurrentIsAWave(required: set<Agent>, history: seq<Flight>)
    ensures DistinctSenders(Current(required, history))
    ensures forall f :: f in Current(required, history) ==> f in history && FromRequired(required, f)
    ensures SendersOf(Current(required, history)) <= required
  {
    LastWaveIsOneWave(Relevant(required, history));
  }

  lemma FullSet<T>(part: set<T>, whole: set<T>)
    requires part <= whole
    ensures |part| == |whole| <==> part == whole
  {
    assert whole == part + (whole - part);
  }

  /** The wave `f` falls in, when `w` is the wave before it. */
  function Joined(w: seq<Flight>, f: Flight): seq<Flight>
    requires f.from.FromAgent?
  {
    if f.from.name in SendersOf(w) then [f] else w + [f]
  }

  lemma WaveStep(spec: JoinSpec, w: seq<Flight>, f: Flight)
    requires SendersOf(w) <= spec.upstreams && (w != [] ==> SendersOf(w) != {})
    requires FromRequired(spec.upstreams, f)
    ensures Holding(spec, w).Delivered(f) == (Holding(spec, Joined(w, f)), Comes(spec, Joined(w, f), f))
  {
    if f.from.name in SendersOf(w) {
      BySenderSnoc([], f);
      assert [] + [f] == [f];
      WaveBegins(spec, w, f);
    } else {
      BySenderSnoc(w, f);
      WaveGrows(spec, w, f);
    }
  }

  lemma WaveBegins(spec: JoinSpec, w: seq<Flight>, f: Flight)
    requires FromRequired(spec.upstreams, f) && f.from.name in SendersOf(w)
    requires BySender([f]) == map[f.from.name := f] && SendersOf([f]) == {f.from.name}
    ensures Holding(spec, w).Delivered(f) == (Holding(spec, [f]), Comes(spec, [f], f))
  {
    var held := Holding(spec, w);
    assert held.Resets(f);
    FullSet({f.from.name}, spec.upstreams);
    var full := map[][f.from.name := f];
    assert full == BySender([f]) && |full.Keys| == 1;
    assert {} + {f.from.name} == {f.from.name};
  }

  lemma WaveGrows(spec: JoinSpec, w: seq<Flight>, f: Flight)
    requires SendersOf(w) <= spec.upstreams && (w != [] ==> SendersOf(w) != {})
    requires FromRequired(spec.upstreams, f) && f.from.name !in SendersOf(w)
    requires BySender(w + [f]) == BySender(w)[f.from.name := f]
    requires SendersOf(w + [f]) == SendersOf(w) + {f.from.name}
    ensures Holding(spec, w).Delivered(f) == (Holding(spec, w + [f]), Comes(spec, w + [f], f))
  {
    hide BySender, SendersOf;
    assert w + [f] != [];
    match spec.join
    case Any =>
      if w == [] {
        assert [] + [f] == [f];
      }
    case All =>
      var full := BySender(w)[f.from.name := f];
      assert SendersOf(w) != spec.upstreams;
      assert |full| == |full.Keys|;
      FullSet(full.Keys, spec.upstreams);
  }

  /** `Delivered` refines the history: whatever has been delivered so far, one more delivery comes to
      what the wave it falls in says, and leaves what the waves so far say. */
  lemma DeliveryRefinesHistory(spec: JoinSpec, history: seq<Flight>, f: Flight)
    ensures StateAfter(spec, history).Delivered(f)
            == (StateAfter(spec, history + [f]), Outcome(spec, history, f))
  {
    RelevantSnoc(spec.upstreams, history, f);
    if FromRequired(spec.upstreams, f) {
      var w := Current(spec.upstreams, history);
      CurrentSnoc(spec.upstreams, history, f);
      CurrentIsAWave(spec.upstreams, history);
      if w != [] {
        assert w[0] in w && FromRequired(spec.upstreams, w[0]);
        assert w[0].from.name in SendersOf(w);
      }
      WaveStep(spec, w, f);
    }
  }

  /** The deliveries of `history` one after another, into a barrier that starts as `spec` says. */
  function Run(spec: JoinSpec, history: seq<Flight>): (r: (State, seq<Delivery>))
    ensures |r.1| == |history|
  {
    if history == [] then (Fresh(spec), [])
    else
      var (state, outcomes) := Run(spec, history[..|history| - 1]);
      var (after, outcome) := state.Delivered(history[|history| - 1]);
      (after, outcomes + [outcome])
  }

  /** A whole run of the barrier is the history cut into waves: the state and every outcome. */
  lemma {:induction false} RunRefinesHistory(spec: JoinSpec, history: seq<Flight>)
    ensures Run(spec, history).0 == StateAfter(spec, history)
    ensures forall k :: 0 <= k < |history| ==>
      Run(spec, history).1[k] == Outcome(spec, history[..k], history[k])
    decreases |history|
  {
    if history != [] {
      var before, last := history[..|history| - 1], history[|history| - 1];
      assert history == before + [last];
      RunRefinesHistory(spec, before);
      DeliveryRefinesHistory(spec, before, last);
      forall k | 0 <= k < |before| ensures before[..k] == history[..k] && before[k] == history[k] {}
    }
  }

  /** An `all` barrier never drops a flight as late, and an `any` barrier never parks one. */
  lemma NoLateUnderAll(spec: JoinSpec, history: seq<Flight>, f: Flight)
    ensures StateAfter(spec, history).Delivered(f).1.Late? ==> spec.join.Any?
    ensures StateAfter(spec, history).Delivered(f).1.Parked? ==> spec.join.All?
    ensures StateAfter(spec, history).parked != map[] ==> spec.join.All?
  {
    DeliveryRefinesHistory(spec, history, f);
    if spec.join.Any? {
      assert Current(spec.upstreams, history) == [] ==> BySender(Current(spec.upstreams, history)) == map[];
    }
  }

  /** What a release hands over: under `all`, one flight of the current wave from each upstream;
      under `any`, the flight that began the wave. */
  lemma ReleaseIsOneWave(spec: JoinSpec, history: seq<Flight>, f: Flight)
    requires StateAfter(spec, history).Delivered(f).1.Ready?
    ensures var flights := StateAfter(spec, history).Delivered(f).1.flights;
            var w := Current(spec.upstreams, history + [f]);
            && f in w
            && (forall a :: a in flights ==> flights[a] in w && flights[a].from == FromAgent(a))
            && (spec.join.All? ==> flights.Keys == spec.upstreams && |w| == |spec.upstreams|)
            && (spec.join.Any? ==> w == [f] && flights == map[f.from.name := f])
  {
    DeliveryRefinesHistory(spec, history, f);
    CurrentSnoc(spec.upstreams, history, f);
    CurrentIsAWave(spec.upstreams, history + [f]);
    var w := Current(spec.upstreams, history + [f]);
    WaveSize(w, spec.upstreams);
  }

  lemma {:induction false} WaveSize(w: seq<Flight>, required: set<Agent>)
    requires DistinctSenders(w) && AllFrom(required, w)
    ensures |w| == |SendersOf(w)|
    decreases |w|
  {
    if w != [] {
      var front, last := w[..|w| - 1], w[|w| - 1];
      assert w == front + [last];
      WaveSize(front, required);
      assert last in w;
      BySenderSnoc(front, last);
      assert last.from.name !in SendersOf(front);
    }
  }

  /** As a history grows from `a` to `b`, either a wave begins or the current wave only grows. */
  lemma {:induction false} WavesMoveOn(required: set<Agent>, a: seq<Flight>, b: seq<Flight>)
    requires a <= b
    ensures WaveNumber(required, a) <= WaveNumber(required, b)
    ensures WaveNumber(required, a) == WaveNumber(required, b) ==> Current(required, a) <= Current(required, b)
    decreases |b|
  {
    if a != b {
      var c, f := b[..|b| - 1], b[|b| - 1];
      assert b == c + [f];
      WavesMoveOn(required, a, c);
      RelevantSnoc(required, c, f);
      if FromRequired(required, f) {
        CurrentSnoc(required, c, f);
      }
    }
  }

  lemma ReleaseSize(spec: JoinSpec, history: seq<Flight>, f: Flight)
    requires Outcome(spec, history, f).Ready?
    ensures FromRequired(spec.upstreams, f)
    ensures |Current(spec.upstreams, history + [f])|
            == if spec.join.Any? then 1 else |spec.upstreams|
  {
    DeliveryRefinesHistory(spec, history, f);
    ReleaseIsOneWave(spec, history, f);
  }

  /** Two releases are always in different waves. */
  lemma WokenOncePerWave(spec: JoinSpec, earlier: seq<Flight>, f: Flight, later: seq<Flight>, g: Flight)
    requires earlier + [f] <= later
    requires Outcome(spec, earlier, f).Ready? && Outcome(spec, later, g).Ready?
    ensures WaveNumber(spec.upstreams, earlier + [f]) < WaveNumber(spec.upstreams, later + [g])
  {
    ReleaseSize(spec, earlier, f);
    ReleaseSize(spec, later, g);
    WavesMoveOn(spec.upstreams, earlier + [f], later);
    CurrentSnoc(spec.upstreams, later, g);
  }

  // ----- where every flight ends -----

  /** Where the flights a barrier has been given went, apart from those still parked. */
  datatype Ledger = Ledger(
    direct: multiset<Flight>, released: multiset<Flight>, late: multiset<Flight>, discarded: multiset<Flight>)
  {
    ghost function Total(): multiset<Flight> {
      direct + released + late + discarded
    }
  }

  ghost function Enter(ledger: Ledger, outcome: Delivery): Ledger {
    match outcome
    case Direct(f) => ledger.(direct := ledger.direct + multiset{f})
    case Late(f) => ledger.(late := ledger.late + multiset{f})
    case Ready(flights) => ledger.(released := ledger.released + multiset(flights.Values))
    case Parked(_) => ledger
  }

  ghost function Settle(ledger: Ledger, before: State, f: Flight): Ledger {
    Enter(if before.Resets(f) then ledger.(discarded := ledger.discarded + multiset(before.parked.Values)) else ledger,
          before.Delivered(f).1)
  }

  ghost function Accounts(spec: JoinSpec, history: seq<Flight>): Ledger {
    if history == [] then Ledger(multiset{}, multiset{}, multiset{}, multiset{})
    else
      var before := history[..|history| - 1];
      Settle(Accounts(spec, before), Run(spec, before).0, history[|history| - 1])
  }

  lemma ParkOne(parked: map<Agent, Flight>, f: Flight)
    requires f.from.FromAgent? && f.from.name !in parked
    requires forall a :: a in parked ==> parked[a].from == FromAgent(a)
    ensures multiset(parked[f.from.name := f].Values) == multiset(parked.Values) + multiset{f}
  {
    var more := parked[f.from.name := f];
    assert f !in parked.Values;
    assert more.Values == parked.Values + {f} by {
      forall g | g in parked.Values + {f} ensures g in more.Values {
        if g == f {
          assert more[f.from.name] == f;
        } else {
          var a :| a in parked && parked[a] == g;
          assert more[a] == g;
        }
      }
    }
  }

  ghost function Values(parked: map<Agent, Flight>): multiset<Flight> {
    multiset(parked.Values)
  }

  /** The flights a delivery ends: none while the one delivered is parked. */
  ghost function Ended(outcome: Delivery): multiset<Flight> {
    match outcome
    case Direct(f) => multiset{f}
    case Late(f) => multiset{f}
    case Ready(flights) => Values(flights)
    case Parked(_) => multiset{}
  }

  /** Where one delivery goes, once any reset has swept what was parked. */
  lemma ArriveOne(begun: State, f: Flight)
    requires begun.Names(f) && !begun.Resets(f)
    requires forall a :: a in begun.parked ==> begun.parked[a].from == FromAgent(a)
    requires begun.parked.Keys <= begun.seen
    ensures var (after, outcome) := begun.Delivered(f);
            Values(begun.parked) + multiset{f}
            == Values(after.parked) + Ended(outcome)
  {
    ParkOne(begun.parked, f);
  }

  lemma EnterOne(begun: State, ledger: Ledger, f: Flight)
    requires begun.Names(f) && !begun.Resets(f)
    requires forall a :: a in begun.parked ==> begun.parked[a].from == FromAgent(a)
    requires begun.parked.Keys <= begun.seen
    ensures Enter(ledger, begun.Delivered(f).1).Total() + Values(begun.Delivered(f).0.parked)
            == ledger.Total() + Values(begun.parked) + multiset{f}
  {
    hide *;
    ArriveOne(begun, f);
    EnterAdds(ledger, begun.Delivered(f).1);
    Regroup(ledger.Total(), Values(begun.parked), multiset{f}, Values(begun.Delivered(f).0.parked),
            Ended(begun.Delivered(f).1));
  }

  lemma Regroup(all: multiset<Flight>, parked: multiset<Flight>, one: multiset<Flight>,
                left: multiset<Flight>, ended: multiset<Flight>)
    requires parked + one == left + ended
    ensures (all + ended) + left == (all + parked) + one
  {
    forall f ensures ((all + ended) + left)[f] == ((all + parked) + one)[f] {
      assert (parked + one)[f] == (left + ended)[f];
    }
  }

  lemma EnterAdds(ledger: Ledger, outcome: Delivery)
    ensures Enter(ledger, outcome).Total()
            == ledger.Total() + Ended(outcome)
  {
  }

  lemma SettleOne(before: State, ledger: Ledger, f: Flight)
    requires forall a :: a in before.parked ==> before.parked[a].from == FromAgent(a)
    requires before.parked.Keys <= before.seen
    ensures Settle(ledger, before, f).Total() + Values(before.Delivered(f).0.parked)
            == ledger.Total() + Values(before.parked) + multiset{f}
  {
    if before.Resets(f) {
      var begun := before.(parked := map[], seen := {}, released := false);
      assert before.Delivered(f) == begun.Delivered(f);
      EnterOne(begun, ledger.(discarded := ledger.discarded + Values(before.parked)), f);
    } else if before.Names(f) {
      EnterOne(before, ledger, f);
    } else {
      assert before.Delivered(f) == (before, Direct(f));
      EnterAdds(ledger, Direct(f));
    }
  }

  /** Every flight given to a barrier ends exactly once: delivered directly, released, dropped as late,
      discarded by a reset, or still parked. */
  lemma {:induction false} EveryFlightEndsOnce(spec: JoinSpec, history: seq<Flight>)
    ensures Accounts(spec, history).Total() + Values(Run(spec, history).0.parked)
            == multiset(history)
    decreases |history|
  {
    if history != [] {
      var before, f := history[..|history| - 1], history[|history| - 1];
      assert history == before + [f];
      EveryFlightEndsOnce(spec, before);
      RunRefinesHistory(spec, before);
      SettleOne(Run(spec, before).0, Accounts(spec, before), f);
    }
  }
}
