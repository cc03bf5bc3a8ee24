/** What a reply writes on disk, one queue and several segments, when any of the writes may fail. */
module Answering {
  import opened Prelude

  /** A request for help a run raised. A reply names the chain that continues the work. */
  datatype HelpRequest = HelpRequest(id: nat, run: nat, resolved: bool, reply: Option<nat>)
  {
    predicate OpenFor(which: nat) {
      run == which && !resolved
    }

    function Replied(chain: nat): HelpRequest {
      this.(resolved := true, reply := Some(chain))
    }
  }

  /** A queued flight, and the requests whose work it continues. */
  datatype Flight = Flight(id: nat, continues: set<nat>)

  type Segment = seq<HelpRequest>

  datatype Disk = Disk(pending: seq<Flight>, segments: seq<Segment>)

  /** What the work that continues comes to, once the open requests have been seen. */
  datatype Composer = Refuses | Composes(flight: nat, chain: nat)

  datatype Answer = Queued(flight: Flight, answered: seq<HelpRequest>) | Unknown | Closed | Refused | Failed

  /** Which reads and writes fail. */
  datatype Luck = Luck(readable: bool, queueWritable: bool, unwritable: set<nat>, undone: bool)

  predicate Mentions(segment: Segment, run: nat) {
    exists k :: 0 <= k < |segment| && segment[k].run == run
  }

  function OpenIn(segment: Segment, run: nat): seq<HelpRequest> {
    if segment == [] then []
    else (if segment[0].OpenFor(run) then [segment[0]] else []) + OpenIn(segment[1..], run)
  }

  /** A run's open requests, in the order of the segments. */
  function Open(segments: seq<Segment>, run: nat): seq<HelpRequest> {
    if segments == [] then [] else OpenIn(segments[0], run) + Open(segments[1..], run)
  }

  function Ids(requests: seq<HelpRequest>): set<nat> {
    set request | request in requests :: request.id
  }

  function RepliedAll(requests: seq<HelpRequest>, chain: nat): seq<HelpRequest> {
    seq(|requests|, k requires 0 <= k < |requests| => requests[k].Replied(chain))
  }

  function Marked(segment: Segment, run: nat, chain: nat): Segment {
    seq(|segment|, k requires 0 <= k < |segment| =>
      if segment[k].OpenFor(run) then segment[k].Replied(chain) else segment[k])
  }

  /** The first segment from `i` on whose rewriting fails, of those that mention the run. */
  function Stop(segments: seq<Segment>, run: nat, unwritable: set<nat>, i: nat): (stop: nat)
    requires i <= |segments|
    ensures i <= stop <= |segments|
    decreases |segments| - i
  {
    if i == |segments| || (Mentions(segments[i], run) && i in unwritable) then i
    else Stop(segments, run, unwritable, i + 1)
  }

  /** The segments before `stop` marked, and the rest as they were. */
  function MarkedTo(segments: seq<Segment>, run: nat, chain: nat, stop: nat): seq<Segment> {
    seq(|segments|, i requires 0 <= i < |segments| =>
      if i < stop then Marked(segments[i], run, chain) else segments[i])
  }

  function Without(pending: seq<Flight>, id: nat): seq<Flight> {
    if pending == [] then []
    else (if pending[0].id != id then [pending[0]] else []) + Without(pending[1..], id)
  }

  /** What answering comes to, and leaves on disk. */
  function Answered(disk: Disk, run: nat, composer: Composer, luck: Luck): (Disk, Answer) {
    var open := Open(disk.segments, run);
    if !luck.readable then (disk, Failed)
    else if forall i :: 0 <= i < |disk.segments| ==> !Mentions(disk.segments[i], run) then (disk, Unknown)
    else if open == [] then (disk, Closed)
    else match composer
      case Refuses => (disk, Refused)
      case Composes(id, chain) =>
        if !luck.queueWritable then (disk, Failed)
        else
          var flight := Flight(id, Ids(open));
          var stop := Stop(disk.segments, run, luck.unwritable, 0);
          var segments := MarkedTo(disk.segments, run, chain, stop);
          if stop == |disk.segments| then
            (Disk(disk.pending + [flight], segments), Queued(flight, RepliedAll(open, chain)))
          else
            var pending := disk.pending + [flight];
            (Disk(if luck.undone then Without(pending, id) else pending, segments), Failed)
  }

  class Journal {
    var pending: seq<Flight>
    var segments: seq<Segment>

    function OnDisk(): Disk
      reads this
    {
      Disk(pending, segments)
    }

    /** Answers every open request `run` raised: queues what continues the work, then marks them. */
    method Reply(run: nat, composer: Composer, luck: Luck) returns (answer: Answer)
      modifies this
      ensures (OnDisk(), answer) == Answered(old(OnDisk()), run, composer, luck)
    {
      if !luck.readable {
        return Failed;
      }
      var chosen, open := Gather(run);
      if !chosen {
        return Unknown;
      }
      if open == [] {
        return Closed;
      }
      if composer.Refuses? {
        return Refused;
      }
      if !luck.queueWritable {
        return Failed;
      }
      var flight := Flight(composer.flight, Ids(open));
      pending := pending + [flight];
      var marked := MarkAll(run, composer.chain, luck.unwritable);
      if marked {
        return Queued(flight, RepliedAll(open, composer.chain));
      }
      if luck.undone {
        pending := Without(pending, flight.id);
      }
      return Failed;
    }

    /** Reads the segments: whether any mentions the run, and the run's open requests. */
    method Gather(run: nat) returns (chosen: bool, open: seq<HelpRequest>)
      ensures chosen <==> exists i :: 0 <= i < |segments| && Mentions(segments[i], run)
      ensures open == Open(segments, run)
    {
      chosen, open := false, [];
      assert segments[0..] == segments;
      for i := 0 to |segments|
        invariant chosen <==> exists j :: 0 <= j < i && Mentions(segments[j], run)
        invariant open + Open(segments[i..], run) == Open(segments, run)
      {
        assert segments[i..][1..] == segments[i + 1..];
        if Mentions(segments[i], run) {
          chosen := true;
        }
        open := open + OpenIn(segments[i], run);
      }
    }

    /** Rewrites the segments that mention the run, up to the first that cannot be. */
    method MarkAll(run: nat, chain: nat, unwritable: set<nat>) returns (marked: bool)
      modifies this`segments
      ensures var stop := Stop(old(segments), run, unwritable, 0);
              segments == MarkedTo(old(segments), run, chain, stop) && (marked <==> stop == |old(segments)|)
    {
      ghost var before := segments;
      for i := 0 to |segments|
        invariant |segments| == |before| && Stop(before, run, unwritable, 0) == Stop(before, run, unwritable, i)
        invariant segments == MarkedTo(before, run, chain, i)
      {
        if Mentions(segments[i], run) {
          if i in unwritable {
            return false;
          }
          segments := segments[i := Marked(segments[i], run, chain)];
        } else {
          assert Marked(before[i], run, chain) == before[i];
        }
      }
      return true;
    }
  }

  // ----- what one call leaves -----

  lemma {:induction false} OpenInHas(segment: Segment, run: nat)
    ensures forall request :: request in OpenIn(segment, run) <==> request in segment && request.OpenFor(run)
  {
    if segment != [] {
      OpenInHas(segment[1..], run);
      assert segment == [segment[0]] + segment[1..];
    }
  }

  /** A request some segment keeps. */
  predicate Keeps(segments: seq<Segment>, request: HelpRequest) {
    exists i :: 0 <= i < |segments| && request in segments[i]
  }

  lemma {:induction false} OpenHas(segments: seq<Segment>, run: nat)
    ensures forall request :: request in Open(segments, run) <==> Keeps(segments, request) && request.OpenFor(run)
  {
    if segments != [] {
      OpenInHas(segments[0], run);
      OpenHas(segments[1..], run);
      KeepsFirst(segments);
    }
  }

  lemma KeepsFirst(segments: seq<Segment>)
    requires segments != []
    ensures forall request ::
      Keeps(segments, request) <==> request in segments[0] || Keeps(segments[1..], request)
  {
    assert forall i :: 0 <= i < |segments| - 1 ==> segments[1..][i] == segments[i + 1];
  }

  lemma HasOne(requests: seq<HelpRequest>)
    ensures requests == [] || exists request :: request in requests
  {
    if requests != [] {
      assert requests[0] in requests;
    }
  }

  lemma MarkedIsClosed(segments: seq<Segment>, run: nat, chain: nat)
    ensures Open(MarkedTo(segments, run, chain, |segments|), run) == []
  {
    var after := MarkedTo(segments, run, chain, |segments|);
    OpenHas(after, run);
    HasOne(Open(after, run));
  }

  /** Nothing is queued without every open request of the run being answered by it, and nothing is left open. */
  lemma SuccessClosesTheRun(disk: Disk, run: nat, composer: Composer, luck: Luck)
    requires Answered(disk, run, composer, luck).1.Queued?
    ensures var (after, answer) := Answered(disk, run, composer, luck);
            && composer.Composes? && answer.flight.id == composer.flight
            && after.pending == disk.pending + [answer.flight]
            && (forall id :: id in answer.flight.continues
                  <==> exists was :: Keeps(disk.segments, was) && was.run == run && !was.resolved && was.id == id)
            && answer.flight.continues != {}
            && Open(after.segments, run) == []
            && RepliesWhere(disk.segments, after.segments, run, composer.chain)
            && forall request :: request in answer.answered
                 <==> exists was :: Keeps(disk.segments, was) && was.run == run && !was.resolved
                                    && request == was.(resolved := true, reply := Some(composer.chain))
  {
    hide Stop, MarkedTo, Without, Keeps;
    var open := Open(disk.segments, run);
    assert open[0] in open && open[0].id in Ids(open);
    MarkedIsClosed(disk.segments, run, composer.chain);
    MarkedEverywhere(disk.segments, run, composer.chain);
    var (after, answer) := Answered(disk, run, composer, luck);
    assert after.segments == MarkedTo(disk.segments, run, composer.chain, |disk.segments|);
    OpenHas(disk.segments, run);
    AnswersOpen(open, composer.chain);
  }

  /** Every request is kept where it was: replied to when it was the run's and open, and otherwise as it was. */
  ghost predicate RepliesWhere(before: seq<Segment>, after: seq<Segment>, run: nat, chain: nat) {
    && |after| == |before|
    && forall i :: 0 <= i < |before| ==>
         && |after[i]| == |before[i]|
         && forall k :: 0 <= k < |before[i]| ==>
              after[i][k] == if before[i][k].run == run && !before[i][k].resolved
                             then before[i][k].(resolved := true, reply := Some(chain)) else before[i][k]
  }

  lemma MarkedEverywhere(segments: seq<Segment>, run: nat, chain: nat)
    ensures RepliesWhere(segments, MarkedTo(segments, run, chain, |segments|), run, chain)
  {
  }

  lemma AnswersOpen(open: seq<HelpRequest>, chain: nat)
    ensures forall request :: request in RepliedAll(open, chain)
              <==> exists was :: was in open && request == was.(resolved := true, reply := Some(chain))
  {
    forall was | was in open ensures was.Replied(chain) in RepliedAll(open, chain) {
      var k :| 0 <= k < |open| && open[k] == was;
      assert RepliedAll(open, chain)[k] == was.Replied(chain);
    }
  }

  /** A call queues exactly when it can read and write the queue, the work can be continued, something of the run's is
      open, and every segment that has anything of the run's can be rewritten. */
  lemma QueuesExactlyWhen(disk: Disk, run: nat, composer: Composer, luck: Luck)
    ensures Answered(disk, run, composer, luck).1.Queued?
            <==> luck.readable && luck.queueWritable && composer.Composes?
                 && (exists kept :: Keeps(disk.segments, kept) && kept.run == run && !kept.resolved)
                 && forall i, r :: 0 <= i < |disk.segments| && i in luck.unwritable && r in disk.segments[i] ==>
                      r.run != run
  {
    OpenHas(disk.segments, run);
    HasOne(Open(disk.segments, run));
    MentionedIsKept(disk.segments, run);
    StopIsFirst(disk.segments, run, luck.unwritable, 0);
    NeverStops(disk.segments, run, luck.unwritable, 0);
    hide Keeps, Open, Stop, Mentions;
  }

  lemma {:induction false} NeverStops(segments: seq<Segment>, run: nat, unwritable: set<nat>, i: nat)
    requires i <= |segments|
    ensures Stop(segments, run, unwritable, i) == |segments| ==>
              forall j, r :: i <= j < |segments| && j in unwritable && r in segments[j] ==> r.run != run
    decreases |segments| - i
  {
    if i < |segments| {
      if Mentions(segments[i], run) && i in unwritable {
      } else {
        NeverStops(segments, run, unwritable, i + 1);
        forall r | i in unwritable && r in segments[i] ensures r.run != run {
          var k :| 0 <= k < |segments[i]| && segments[i][k] == r;
        }
      }
    }
  }

  /** Why a call queued nothing, when it could read what there is: the run asked for nothing that is kept,
      everything it asked for has been dealt with, or the work could not be continued. */
  lemma WhyNothingWasQueued(disk: Disk, run: nat, composer: Composer, luck: Luck)
    requires luck.readable
    ensures var answer := Answered(disk, run, composer, luck).1;
            && (answer.Unknown? <==> forall kept :: Keeps(disk.segments, kept) ==> kept.run != run)
            && (answer.Closed? <==> (exists kept :: Keeps(disk.segments, kept) && kept.run == run)
                                    && forall kept :: Keeps(disk.segments, kept) && kept.run == run ==> kept.resolved)
            && (answer.Refused? <==> composer.Refuses?
                                     && exists kept :: Keeps(disk.segments, kept) && kept.OpenFor(run))
  {
    MentionedIsKept(disk.segments, run);
    OpenHas(disk.segments, run);
    HasOne(Open(disk.segments, run));
    hide Keeps, Open, Mentions;
  }

  lemma MentionedIsKept(segments: seq<Segment>, run: nat)
    ensures (exists i :: 0 <= i < |segments| && Mentions(segments[i], run))
            <==> exists kept :: Keeps(segments, kept) && kept.run == run
  {
    if i :| 0 <= i < |segments| && Mentions(segments[i], run) {
      var k :| 0 <= k < |segments[i]| && segments[i][k].run == run;
      assert Keeps(segments, segments[i][k]);
    }
    if kept :| Keeps(segments, kept) && kept.run == run {
      var i :| 0 <= i < |segments| && kept in segments[i];
      assert Mentions(segments[i], run);
    }
  }

  lemma {:induction false} WithoutNew(pending: seq<Flight>, flight: Flight)
    requires forall k :: 0 <= k < |pending| ==> pending[k].id != flight.id
    ensures Without(pending + [flight], flight.id) == pending
  {
    if pending != [] {
      assert (pending + [flight])[1..] == pending[1..] + [flight];
      WithoutNew(pending[1..], flight);
    }
  }

  predicate NewFlight(disk: Disk, composer: Composer) {
    composer.Composes? ==> forall k :: 0 <= k < |disk.pending| ==> disk.pending[k].id != composer.flight
  }

  /** Whether the call reaches its writes to the segments and one of them fails. */
  predicate FailsMarking(disk: Disk, run: nat, composer: Composer, luck: Luck) {
    && luck.readable && luck.queueWritable && composer.Composes? && Open(disk.segments, run) != []
    && (exists i :: 0 <= i < |disk.segments| && Mentions(disk.segments[i], run))
    && Stop(disk.segments, run, luck.unwritable, 0) < |disk.segments|
  }

  /** A call that queues nothing leaves the queue as it was exactly when it does not fail while marking, or its
      undoing is written; and leaves every request as it was exactly when it does not fail while marking, or
      fails before it has come to one of the run's that is open. */
  lemma FailureLeavesTheQueue(disk: Disk, run: nat, composer: Composer, luck: Luck)
    requires NewFlight(disk, composer) && !Answered(disk, run, composer, luck).1.Queued?
    ensures var (after, answer) := Answered(disk, run, composer, luck);
            && (after.pending == disk.pending <==> FailsMarking(disk, run, composer, luck) ==> luck.undone)
            && (after.segments == disk.segments
                <==> FailsMarking(disk, run, composer, luck)
                     ==> Open(disk.segments[..Stop(disk.segments, run, luck.unwritable, 0)], run) == [])
  {
    if FailsMarking(disk, run, composer, luck) {
      var flight := Flight(composer.flight, Ids(Open(disk.segments, run)));
      WithoutNew(disk.pending, flight);
      UnchangedWhenNoneOpen(disk.segments, run, composer.chain, Stop(disk.segments, run, luck.unwritable, 0));
    }
  }

  /** A call that fails while marking has replied to everything before the first segment it could not rewrite, and
      nothing after; unless its undoing was written, its flight is left at the end of the queue. */
  lemma FailingMarksUpTo(disk: Disk, run: nat, composer: Composer, luck: Luck)
    requires FailsMarking(disk, run, composer, luck)
    ensures var (after, answer) := Answered(disk, run, composer, luck);
            && answer.Failed?
            && (!luck.undone ==>
                  after.pending == disk.pending + [Flight(composer.flight, Ids(Open(disk.segments, run)))])
            && exists stop: nat :: FirstUnwritable(disk.segments, run, luck.unwritable, stop)
                 && |after.segments| == |disk.segments| && after.segments[stop..] == disk.segments[stop..]
                 && RepliesWhere(disk.segments[..stop], after.segments[..stop], run, composer.chain)
  {
    hide Open, Without, Mentions, Stop;
    StopIsFirst(disk.segments, run, luck.unwritable, 0);
  }

  /** The first segment that has something of the run's and cannot be rewritten. */
  ghost predicate FirstUnwritable(segments: seq<Segment>, run: nat, unwritable: set<nat>, stop: nat) {
    && stop < |segments| && stop in unwritable && (exists r :: r in segments[stop] && r.run == run)
    && forall i :: 0 <= i < stop && i in unwritable ==> forall r :: r in segments[i] ==> r.run != run
  }

  lemma {:induction false} StopIsFirst(segments: seq<Segment>, run: nat, unwritable: set<nat>, i: nat)
    requires i <= |segments|
    requires forall j :: 0 <= j < i && j in unwritable ==> forall r :: r in segments[j] ==> r.run != run
    ensures var stop := Stop(segments, run, unwritable, i);
            stop < |segments| ==> FirstUnwritable(segments, run, unwritable, stop)
    decreases |segments| - i
  {
    if i < |segments| {
      if Mentions(segments[i], run) && i in unwritable {
        var k :| 0 <= k < |segments[i]| && segments[i][k].run == run;
        assert segments[i][k] in segments[i];
      } else {
        StopIsFirst(segments, run, unwritable, i + 1);
      }
    }
  }

  lemma UnchangedWhenNoneOpen(segments: seq<Segment>, run: nat, chain: nat, stop: nat)
    requires stop <= |segments|
    ensures MarkedTo(segments, run, chain, stop) == segments <==> Open(segments[..stop], run) == []
  {
    var marked := MarkedTo(segments, run, chain, stop);
    OpenHas(segments[..stop], run);
    if Open(segments[..stop], run) == [] {
      forall i | 0 <= i < |segments| ensures marked[i] == segments[i] {
        if i < stop {
          forall j | 0 <= j < |segments[i]| ensures !segments[i][j].OpenFor(run) {
            assert segments[..stop][i] == segments[i] && segments[i][j] in segments[..stop][i];
            assert Keeps(segments[..stop], segments[i][j]);
            assert segments[i][j] !in Open(segments[..stop], run);
          }
          assert Marked(segments[i], run, chain) == segments[i];
        }
      }
    } else {
      var request := Open(segments[..stop], run)[0];
      assert request in Open(segments[..stop], run);
      var i :| 0 <= i < stop && request in segments[..stop][i];
      var j :| 0 <= j < |segments[i]| && segments[i][j] == request;
      assert marked[i][j] != segments[i][j];
    }
  }

  // ----- any interleaving of calls -----

  /** The disk, and the flights a Tower has taken from the queue to run. */
  datatype State = State(disk: Disk, taken: seq<Flight>)
  {
    function Flights(): seq<Flight> {
      taken + disk.pending
    }
  }

  datatype Event =
    | Asks(segment: nat, request: HelpRequest)          // a run raises a request
    | Resolves(ids: set<nat>)                           // requests marked dealt with by hand
    | Queues(flight: Flight)                            // other work queued
    | Takes(k: nat)                                     // the Tower picks a flight up
    | Answers(run: nat, composer: Composer, luck: Luck)

  ghost predicate Enabled(s: State, event: Event) {
    match event
    case Asks(i, request) =>
      && i < |s.disk.segments| && !request.resolved
      && (forall kept :: Keeps(s.disk.segments, kept) ==> kept.id != request.id)
      && (forall k :: 0 <= k < |s.Flights()| ==> request.id !in s.Flights()[k].continues)
    case Resolves(_) => true
    case Queues(flight) => flight.continues == {}
    case Takes(k) => k < |s.disk.pending|
    case Answers(_, composer, _) => NewFlight(s.disk, composer)
  }

  function ResolvedIn(segment: Segment, ids: set<nat>): Segment {
    seq(|segment|, k requires 0 <= k < |segment| =>
      if segment[k].id in ids then segment[k].(resolved := true) else segment[k])
  }

  function ResolvedAll(segments: seq<Segment>, ids: set<nat>): seq<Segment> {
    seq(|segments|, i requires 0 <= i < |segments| => ResolvedIn(segments[i], ids))
  }

  function Next(s: State, event: Event): State {
    match event
    case Asks(i, request) =>
      if i < |s.disk.segments| then
        s.(disk := s.disk.(segments := s.disk.segments[i := s.disk.segments[i] + [request]]))
      else s
    case Resolves(ids) => s.(disk := s.disk.(segments := ResolvedAll(s.disk.segments, ids)))
    case Queues(flight) => s.(disk := s.disk.(pending := s.disk.pending + [flight]))
    case Takes(k) =>
      if k < |s.disk.pending| then
        State(s.disk.(pending := s.disk.pending[..k] + s.disk.pending[k + 1..]), s.taken + [s.disk.pending[k]])
      else s
    case Answers(run, composer, luck) => s.(disk := Answered(s.disk, run, composer, luck).0)
  }

  /** Every request `after` keeps was kept before, by the same run, and dealt with still if it was. */
  ghost predicate Follows(before: seq<Segment>, after: seq<Segment>) {
    forall request :: Keeps(after, request) ==>
      exists was :: Keeps(before, was) && was.id == request.id && was.run == request.run
                    && (was.resolved ==> request.resolved)
  }

  ghost predicate DealtWith(segments: seq<Segment>, ids: set<nat>) {
    forall request :: Keeps(segments, request) && request.id in ids ==> request.resolved
  }

  ghost predicate IdsAreOneRuns(segments: seq<Segment>) {
    forall a, b :: Keeps(segments, a) && Keeps(segments, b) && a.id == b.id ==> a.run == b.run
  }

  predicate NoneShared(flights: seq<Flight>) {
    forall i, j :: 0 <= i < j < |flights| ==> flights[i].continues !! flights[j].continues
  }

  /** No two flights continue one request, and none continues a request still open. */
  ghost predicate Sound(s: State) {
    && IdsAreOneRuns(s.disk.segments)
    && NoneShared(s.Flights())
    && forall k :: 0 <= k < |s.Flights()| ==> DealtWith(s.disk.segments, s.Flights()[k].continues)
  }

  lemma FollowsKeeps(before: seq<Segment>, after: seq<Segment>, ids: set<nat>)
    requires Follows(before, after)
    ensures IdsAreOneRuns(before) ==> IdsAreOneRuns(after)
    ensures DealtWith(before, ids) ==> DealtWith(after, ids)
  {
  }

  lemma MarkedFollows(segments: seq<Segment>, run: nat, chain: nat, stop: nat)
    ensures Follows(segments, MarkedTo(segments, run, chain, stop))
  {
    var after := MarkedTo(segments, run, chain, stop);
    forall request | Keeps(after, request)
      ensures exists was :: Keeps(segments, was) && was.id == request.id && was.run == request.run
                            && (was.resolved ==> request.resolved)
    {
      var i :| 0 <= i < |after| && request in after[i];
      var j :| 0 <= j < |after[i]| && after[i][j] == request;
      assert segments[i][j] in segments[i];
      assert Keeps(segments, segments[i][j]);
    }
  }

  lemma ResolvedFollows(segments: seq<Segment>, ids: set<nat>)
    ensures Follows(segments, ResolvedAll(segments, ids))
  {
    var after := ResolvedAll(segments, ids);
    forall request | Keeps(after, request)
      ensures exists was :: Keeps(segments, was) && was.id == request.id && was.run == request.run
                            && (was.resolved ==> request.resolved)
    {
      var i :| 0 <= i < |after| && request in after[i];
      var j :| 0 <= j < |after[i]| && after[i][j] == request;
      assert segments[i][j] in segments[i];
      assert Keeps(segments, segments[i][j]);
    }
  }

  /** The requests a new continuation answers are no other's, and are dealt with once it is queued. */
  lemma ContinuationIsNew(s: State, run: nat, chain: nat)
    requires Sound(s)
    ensures var ids := Ids(Open(s.disk.segments, run));
            && (forall k :: 0 <= k < |s.Flights()| ==> s.Flights()[k].continues !! ids)
            && DealtWith(MarkedTo(s.disk.segments, run, chain, |s.disk.segments|), ids)
  {
    var segments := s.disk.segments;
    var after := MarkedTo(segments, run, chain, |segments|);
    OpenHas(segments, run);
    MarkedFollows(segments, run, chain, |segments|);
    MarkedIsClosed(segments, run, chain);
    OpenHas(after, run);
    forall request | Keeps(after, request) && request.id in Ids(Open(segments, run)) ensures request.resolved {
      var was :| Keeps(segments, was) && was.id == request.id && was.run == request.run;
      assert request.run == run;
      assert request !in Open(after, run);
    }
  }

  lemma SharedAppend(flights: seq<Flight>, flight: Flight)
    requires NoneShared(flights) && forall k :: 0 <= k < |flights| ==> flights[k].continues !! flight.continues
    ensures NoneShared(flights + [flight])
  {
  }

  /** Whether a call that fails while marking does no lasting harm: its flight is taken back, or nothing it had
      still to mark was open, so that the flight continues what has all been marked. */
  predicate Recovers(disk: Disk, run: nat, composer: Composer, luck: Luck) {
    FailsMarking(disk, run, composer, luck) ==>
      luck.undone || Open(disk.segments[Stop(disk.segments, run, luck.unwritable, 0)..], run) == []
  }

  lemma AnswerKeepsSound(s: State, run: nat, composer: Composer, luck: Luck)
    requires Sound(s) && NewFlight(s.disk, composer)
    requires FailsMarking(s.disk, run, composer, luck) ==> luck.undone
    ensures Sound(s.(disk := Answered(s.disk, run, composer, luck).0))
  {
    hide Open, Stop, MarkedTo, Without, Keeps, IdsAreOneRuns, DealtWith, NoneShared;
    var (after, answer) := Answered(s.disk, run, composer, luck);
    var next := s.(disk := after);
    if answer.Queued? {
      QueuedKeepsSound(s, run, composer.flight, composer.chain);
      assert after.segments == MarkedTo(s.disk.segments, run, composer.chain, |s.disk.segments|);
    } else {
      FailureLeavesTheQueue(s.disk, run, composer, luck);
      assert next.Flights() == s.Flights();
      if FailsMarking(s.disk, run, composer, luck) {
        MarkedFollows(s.disk.segments, run, composer.chain, Stop(s.disk.segments, run, luck.unwritable, 0));
        SegmentsFollow(s, after.segments);
      } else {
        assert after.segments == s.disk.segments;
      }
    }
  }

  /** Queueing a flight for everything open and marking all of it. */
  lemma QueuedKeepsSound(s: State, run: nat, id: nat, chain: nat)
    requires Sound(s)
    ensures var flight := Flight(id, Ids(Open(s.disk.segments, run)));
            var segments := MarkedTo(s.disk.segments, run, chain, |s.disk.segments|);
            Sound(s.(disk := Disk(s.disk.pending + [flight], segments)))
  {
    hide Open, MarkedTo, Keeps, IdsAreOneRuns, DealtWith, NoneShared;
    var flight := Flight(id, Ids(Open(s.disk.segments, run)));
    var segments := MarkedTo(s.disk.segments, run, chain, |s.disk.segments|);
    var next := s.(disk := Disk(s.disk.pending + [flight], segments));
    MarkedFollows(s.disk.segments, run, chain, |s.disk.segments|);
    ContinuationIsNew(s, run, chain);
    SharedAppend(s.Flights(), flight);
    assert next.Flights() == s.Flights() + [flight];
    forall k | 0 <= k < |next.Flights()| ensures DealtWith(segments, next.Flights()[k].continues) {
      if k < |s.Flights()| {
        FollowsKeeps(s.disk.segments, segments, s.Flights()[k].continues);
      }
    }
    FollowsKeeps(s.disk.segments, segments, {});
  }

  /** Marking up to a stop with nothing open at it or after it is marking all. */
  lemma NothingLeftToMark(segments: seq<Segment>, run: nat, chain: nat, stop: nat)
    requires stop <= |segments| && Open(segments[stop..], run) == []
    ensures MarkedTo(segments, run, chain, stop) == MarkedTo(segments, run, chain, |segments|)
  {
    OpenHas(segments[stop..], run);
    forall i | stop <= i < |segments| ensures Marked(segments[i], run, chain) == segments[i] {
      forall j | 0 <= j < |segments[i]| ensures !segments[i][j].OpenFor(run) {
        assert segments[stop..][i - stop] == segments[i] && segments[i][j] in segments[i];
        assert Keeps(segments[stop..], segments[i][j]);
        assert segments[i][j] !in Open(segments[stop..], run);
      }
    }
  }

  /** One call keeps every request continued by one flight at most, and none still open continued, exactly when
      it recovers from failing to mark, if it does fail. */
  lemma AnswerKeepsSoundExactly(s: State, run: nat, composer: Composer, luck: Luck)
    requires Sound(s) && NewFlight(s.disk, composer)
    ensures Sound(s.(disk := Answered(s.disk, run, composer, luck).0)) <==> Recovers(s.disk, run, composer, luck)
  {
    hide Open, Stop, MarkedTo, Without, Keeps, Sound;
    if FailsMarking(s.disk, run, composer, luck) && !luck.undone {
      var stop := Stop(s.disk.segments, run, luck.unwritable, 0);
      if Open(s.disk.segments[stop..], run) == [] {
        NothingLeftToMark(s.disk.segments, run, composer.chain, stop);
        QueuedKeepsSound(s, run, composer.flight, composer.chain);
      } else {
        LeftOpenIsUnsound(s, run, composer.flight, composer.chain, stop);
      }
    } else {
      AnswerKeepsSound(s, run, composer, luck);
    }
  }

  lemma LeftOpenIsUnsound(s: State, run: nat, id: nat, chain: nat, stop: nat)
    requires stop <= |s.disk.segments| && Open(s.disk.segments[stop..], run) != []
    ensures var flight := Flight(id, Ids(Open(s.disk.segments, run)));
            var segments := MarkedTo(s.disk.segments, run, chain, stop);
            !Sound(s.(disk := Disk(s.disk.pending + [flight], segments)))
  {
    var flight := Flight(id, Ids(Open(s.disk.segments, run)));
    var segments := MarkedTo(s.disk.segments, run, chain, stop);
    var next := s.(disk := Disk(s.disk.pending + [flight], segments));
    StillOpen(s.disk.segments, run, chain, stop);
    OpenHas(segments, run);
    var request := Open(segments, run)[0];
    assert request in Open(segments, run) && request.id in flight.continues;
    assert next.Flights()[|next.Flights()| - 1] == flight;
    assert !DealtWith(segments, flight.continues);
  }

  lemma SegmentsFollow(s: State, after: seq<Segment>)
    requires Sound(s) && Follows(s.disk.segments, after)
    ensures Sound(s.(disk := s.disk.(segments := after)))
  {
    var next := s.(disk := s.disk.(segments := after));
    FollowsKeeps(s.disk.segments, after, {});
    forall k | 0 <= k < |next.Flights()| ensures DealtWith(after, next.Flights()[k].continues) {
      assert next.Flights()[k] == s.Flights()[k];
      FollowsKeeps(s.disk.segments, after, s.Flights()[k].continues);
    }
  }

  lemma AskKeepsSound(s: State, i: nat, request: HelpRequest)
    requires Sound(s) && Enabled(s, Asks(i, request))
    ensures Sound(Next(s, Asks(i, request)))
  {
    var after := Next(s, Asks(i, request)).disk.segments;
    forall kept ensures Keeps(after, kept) ==> Keeps(s.disk.segments, kept) || kept == request {
      if Keeps(after, kept) {
        var j :| 0 <= j < |after| && kept in after[j];
        assert j != i ==> after[j] == s.disk.segments[j];
      }
    }
    assert Next(s, Asks(i, request)).Flights() == s.Flights();
  }

  lemma QueueKeepsSound(s: State, flight: Flight)
    requires Sound(s) && flight.continues == {}
    ensures Sound(Next(s, Queues(flight)))
  {
    assert Next(s, Queues(flight)).Flights() == s.Flights() + [flight];
    SharedAppend(s.Flights(), flight);
  }

  lemma TakeKeepsSound(s: State, k: nat)
    requires Sound(s) && k < |s.disk.pending|
    ensures Sound(Next(s, Takes(k)))
  {
    var next := Next(s, Takes(k));
    var n := |s.taken|;
    forall j | 0 <= j < |next.Flights()|
      ensures next.Flights()[j] == s.Flights()[if j < n || j > n + k then j else if j == n then n + k else j - 1]
    {
    }
  }

  ghost predicate Happens(s: State, events: seq<Event>)
    decreases |events|
  {
    events == [] || (Enabled(s, events[0]) && Happens(Next(s, events[0]), events[1..]))
  }

  function After(s: State, events: seq<Event>): State
    decreases |events|
  {
    if events == [] then s else After(Next(s, events[0]), events[1..])
  }

  /** Whether every call recovers, if it fails while marking. */
  ghost predicate Recovered(s: State, events: seq<Event>)
    decreases |events|
  {
    events == [] ||
    ((events[0].Answers? ==> Recovers(s.disk, events[0].run, events[0].composer, events[0].luck))
     && Recovered(Next(s, events[0]), events[1..]))
  }

  lemma StepKeepsSound(s: State, event: Event)
    requires Sound(s) && Enabled(s, event)
    requires event.Answers? ==> Recovers(s.disk, event.run, event.composer, event.luck)
    ensures Sound(Next(s, event))
  {
    hide Sound;
    match event
    case Asks(i, request) => AskKeepsSound(s, i, request);
    case Resolves(ids) =>
      ResolvedFollows(s.disk.segments, ids);
      SegmentsFollow(s, ResolvedAll(s.disk.segments, ids));
    case Queues(flight) => QueueKeepsSound(s, flight);
    case Takes(k) => TakeKeepsSound(s, k);
    case Answers(run, composer, luck) => AnswerKeepsSoundExactly(s, run, composer, luck);
  }

  /** For any interleaving of calls, runs asking, requests dealt with by hand and flights taken, and any failing
      writes that calls recover from, no request is ever continued by two flights, queued or already taken. */
  lemma {:induction false} OneContinuationEach(s: State, events: seq<Event>)
    requires Sound(s) && Happens(s, events) && Recovered(s, events)
    ensures Sound(After(s, events))
    decreases |events|
  {
    if events != [] {
      StepKeepsSound(s, events[0]);
      OneContinuationEach(Next(s, events[0]), events[1..]);
    }
  }

  /** And no further than that: the first call that does not recover leaves a request still open continued by a
      flight, whatever came before it. */
  lemma UnrecoveredIsUnsound(s: State, events: seq<Event>, run: nat, composer: Composer, luck: Luck)
    requires Sound(s) && Happens(s, events) && Recovered(s, events)
    requires NewFlight(After(s, events).disk, composer)
    ensures Sound(Next(After(s, events), Answers(run, composer, luck)))
            <==> Recovers(After(s, events).disk, run, composer, luck)
  {
    OneContinuationEach(s, events);
    AnswerKeepsSoundExactly(After(s, events), run, composer, luck);
  }

  /** A run with nothing open keeps nothing open until it asks again, whatever else happens. */
  lemma NoneOpenStep(s: State, event: Event, run: nat)
    requires Open(s.disk.segments, run) == [] && Enabled(s, event)
    requires event.Asks? ==> event.request.run != run
    ensures Open(Next(s, event).disk.segments, run) == []
  {
    hide Open, Follows, Enabled, MarkedTo, ResolvedAll;
    var before, after := s.disk.segments, Next(s, event).disk.segments;
    match event
    case Asks(i, request) =>
      if i < |before| {
        NoneOpenAsked(before, i, request, run);
      }
    case Resolves(ids) =>
      ResolvedFollows(before, ids);
      NoneOpenFollows(before, after, run);
    case Answers(other, composer, luck) =>
      if after != before {
        var stop := Stop(before, other, luck.unwritable, 0);
        MarkedFollows(before, other, composer.chain, stop);
        NoneOpenFollows(before, after, run);
      }
    case _ =>
  }

  lemma NoneOpenAsked(before: seq<Segment>, i: nat, request: HelpRequest, run: nat)
    requires i < |before| && request.run != run
    ensures Open(before, run) == [] ==> Open(before[i := before[i] + [request]], run) == []
  {
    var after := before[i := before[i] + [request]];
    OpenHas(before, run);
    OpenHas(after, run);
    forall kept | kept in Open(after, run) ensures kept in Open(before, run) {
      var j :| 0 <= j < |after| && kept in after[j];
      assert kept in before[j];
    }
    HasOne(Open(after, run));
  }

  lemma NoneOpenFollows(before: seq<Segment>, after: seq<Segment>, run: nat)
    requires Follows(before, after)
    ensures Open(before, run) == [] ==> Open(after, run) == []
  {
    forall request | request in Open(after, run) ensures Open(before, run) != [] {
      OpenComesFrom(before, after, run, request);
    }
    HasOne(Open(after, run));
  }

  lemma OpenComesFrom(before: seq<Segment>, after: seq<Segment>, run: nat, request: HelpRequest)
    requires Follows(before, after) && request in Open(after, run)
    ensures Open(before, run) != []
  {
    OpenHas(before, run);
    OpenHas(after, run);
    var was :| Keeps(before, was) && was.id == request.id && was.run == request.run
               && (was.resolved ==> request.resolved);
    assert was in Open(before, run);
  }

  /** After a run's requests have been answered, every later call for it queues nothing until it asks again. */
  lemma {:induction false} NothingMoreUntilAskedAgain(
      s: State, events: seq<Event>, run: nat, composer: Composer, luck: Luck)
    requires Open(s.disk.segments, run) == [] && Happens(s, events)
    requires forall event :: event in events && event.Asks? ==> event.request.run != run
    ensures var after := After(s, events);
            && Answered(after.disk, run, composer, luck).0 == after.disk
            && !Answered(after.disk, run, composer, luck).1.Queued?
    decreases |events|
  {
    if events != [] {
      assert events[0] in events && forall event :: event in events[1..] ==> event in events;
      NoneOpenStep(s, events[0], run);
      NothingMoreUntilAskedAgain(Next(s, events[0]), events[1..], run, composer, luck);
    }
  }

  /** When the undoing is not written either, a retry queues the same requests' work a second time: every one
      that was still to be marked is continued by both flights. */
  lemma UndoLostQueuesTwice(disk: Disk, run: nat, first: Composer, luck: Luck, second: Composer)
    requires NewFlight(disk, first) && FailsMarking(disk, run, first, luck) && !luck.undone
    requires second.Composes? && Open(disk.segments[Stop(disk.segments, run, luck.unwritable, 0)..], run) != []
    ensures var after := Answered(disk, run, first, luck).0;
            var (twice, answer) := Answered(after, run, second, Luck(true, true, {}, true));
            && answer.Queued?
            && twice.pending
               == disk.pending + [Flight(first.flight, Ids(Open(disk.segments, run))), answer.flight]
            && answer.flight.continues != {} && answer.flight.continues <= Ids(Open(disk.segments, run))
  {
    hide Open, Stop, MarkedTo, Without, Mentions;
    var stop := Stop(disk.segments, run, luck.unwritable, 0);
    var after := Answered(disk, run, first, luck).0;
    assert after.segments == MarkedTo(disk.segments, run, first.chain, stop);
    StillOpen(disk.segments, run, first.chain, stop);
    NoStop(after.segments, run, 0);
    var open := Open(after.segments, run);
    OpenIsMentioned(after.segments, run);
    assert open[0] in open && open[0].id in Ids(open);
    var one, two := Flight(first.flight, Ids(Open(disk.segments, run))), Flight(second.flight, Ids(open));
    assert disk.pending + [one] + [two] == disk.pending + [one, two];
  }

  lemma OpenIsMentioned(segments: seq<Segment>, run: nat)
    requires Open(segments, run) != []
    ensures exists i :: 0 <= i < |segments| && Mentions(segments[i], run)
  {
    var request := Open(segments, run)[0];
    OpenHas(segments, run);
    assert request in Open(segments, run);
    var i :| 0 <= i < |segments| && request in segments[i];
    assert Mentions(segments[i], run);
  }

  lemma {:induction false} NoStop(segments: seq<Segment>, run: nat, i: nat)
    requires i <= |segments|
    ensures Stop(segments, run, {}, i) == |segments|
    decreases |segments| - i
  {
    if i < |segments| {
      NoStop(segments, run, i + 1);
    }
  }

  lemma StillOpen(segments: seq<Segment>, run: nat, chain: nat, stop: nat)
    requires stop <= |segments| && Open(segments[stop..], run) != []
    ensures var open := Open(MarkedTo(segments, run, chain, stop), run);
            open != [] && forall request :: request in open ==> request in Open(segments, run)
  {
    var after := MarkedTo(segments, run, chain, stop);
    OpenHas(segments[stop..], run);
    OpenHas(segments, run);
    OpenHas(after, run);
    var request := Open(segments[stop..], run)[0];
    assert request in Open(segments[stop..], run);
    var i :| 0 <= i < |segments[stop..]| && request in segments[stop..][i];
    assert after[stop + i] == segments[stop + i] == segments[stop..][i];
    assert Keeps(after, request) && request in Open(after, run);
    forall kept | kept in Open(after, run) ensures kept in Open(segments, run) {
      var k :| 0 <= k < |after| && kept in after[k];
      var j :| 0 <= j < |after[k]| && after[k][j] == kept;
      assert segments[k][j] == kept && kept in segments[k];
    }
  }
}
