/** Starts, proofs and deaths of an installed release, and what each leaves on disk. */
module Arriving {
  import opened Prelude
  import opened Updating

  /** What outlives a process: the record of the hand-over, and which version the binary is. */
  datatype Disk = Disk(record: Option<Handover>, binary: Version)
  {
    /** Whether a start now would be one of a new version that has neither proved itself nor been rolled back. */
    predicate Unproved() {
      record.Some? && record.value.to == binary && !record.value.Settled()
    }

    function Boots(): nat {
      if record.Some? then record.value.boots else 0
    }

    predicate Settled() {
      record.Some? && record.value.Settled()
    }

    predicate RolledBack() {
      record.Some? && record.value.rolledBack
    }

    predicate Healthy() {
      record.Some? && record.value.healthy
    }
  }

  /** How far a start gets before its process dies. */
  datatype Death = BeforeRestore | BeforeWrite | AfterWrite | Survives

  /** What the outside does with a start: whether it comes after the deadline, whether the old binary can be
      put back, whether the record can be written, and when the process dies. */
  datatype Fate = Fate(late: bool, restored: bool, written: bool, death: Death)
  {
    predicate Lands() {
      written && death != BeforeRestore && death != BeforeWrite
    }
  }

  datatype Process = Down | Up(running: Version, proving: bool)

  datatype State = State(disk: Disk, process: Process)

  /** Whether a count of starts, the present one in it, or the clock has gone too far. */
  predicate Overdue(record: Handover, fate: Fate) {
    record.boots > 2 || fate.late
  }

  function Kept(disk: Disk, record: Handover, fate: Fate): Disk {
    if fate.Lands() then disk.(record := Some(record)) else disk
  }

  function Surviving(running: Version, proving: bool, fate: Fate): Process {
    if fate.death.Survives? then Up(running, proving) else Down
  }

  /** What a start makes of the disk, and of the process. */
  function Started(disk: Disk, supervised: bool, fate: Fate): State {
    var running := disk.binary;
    match disk.record
    case None => State(disk, Surviving(running, false, fate))
    case Some(left) =>
      if left.to == running && !left.Settled() then
        var record := left.(boots := left.boots + 1, token := None);
        if Overdue(record, fate) && supervised then
          var restored :=
            if fate.restored && !fate.death.BeforeRestore? then disk.(binary := record.from) else disk;
          State(Kept(restored, record.(rolledBack := true), fate), Down)
        else State(Kept(disk, record, fate), Surviving(running, true, fate))
      else if left.from == running && left.to != running && !left.Settled() then
        State(Kept(disk, left.(rolledBack := true, token := None), fate), Surviving(running, false, fate))
      else State(disk, Surviving(running, false, fate))
  }

  /** What a start comes to. It comes up as the version the binary is, unless it dies, or is a supervised unproved
      release started a third time or too late, which gives up; and proving itself exactly when it is such a release. */
  lemma ComesUpExactly(disk: Disk, supervised: bool, fate: Fate)
    ensures var after := Started(disk, supervised, fate);
            var givesUp := disk.Unproved() && supervised && (disk.record.value.boots >= 2 || fate.late);
            && (after.process.Up? <==> fate.death.Survives? && !givesUp)
            && (after.process.Up? ==>
                  after.process.running == disk.binary && (after.process.proving <==> disk.Unproved()))
  {
  }

  /** And on disk. An unproved release takes its token and counts itself, or rolls itself back; the version before it,
      running again, rolls it back; and any other start leaves everything as it was. Whatever is written is written
      only when the write lands. */
  lemma LeavesOnDisk(disk: Disk, supervised: bool, fate: Fate)
    ensures var after := Started(disk, supervised, fate).disk;
            var givesUp := disk.Unproved() && supervised && (disk.record.value.boots >= 2 || fate.late);
            var runsAgain := disk.record.Some? && !disk.Settled() && disk.record.value.from == disk.binary
                             && disk.record.value.to != disk.binary;
            && after.binary == (if givesUp && fate.restored && !fate.death.BeforeRestore? then disk.record.value.from
                                else disk.binary)
            && (!fate.Lands() || !(disk.Unproved() || runsAgain) ==> after.record == disk.record)
            && (fate.Lands() && (disk.Unproved() || runsAgain) ==>
                  && after.record.Some? && after.record.value.token == None && !after.record.value.healthy
                  && (after.record.value.from, after.record.value.to) == (disk.record.value.from, disk.record.value.to)
                  && after.record.value.boots == disk.record.value.boots + (if runsAgain then 0 else 1)
                  && (after.record.value.rolledBack <==> givesUp || runsAgain))
  {
  }

  /** The disk, as a start changes it in place. */
  class Factory {
    var record: Option<Handover>
    var binary: Version

    function Left(): Disk
      reads this
    {
      Disk(record, binary)
    }

    method Put(changed: Handover, fate: Fate)
      modifies this`record
      ensures record == if fate.Lands() then Some(changed) else old(record)
    {
      if fate.Lands() {
        record := Some(changed);
      }
    }

    /** One start, against `Started`: every branch on the record left, with its write or without. */
    method Arrive(supervised: bool, fate: Fate) returns (process: Process)
      modifies this
      ensures State(Left(), process) == Started(old(Left()), supervised, fate)
    {
      var running := binary;
      if record.None? {
        return Surviving(running, false, fate);
      }
      var left := record.value;
      if left.to == running && !left.Settled() {
        left := left.(boots := left.boots + 1, token := None);
        if (left.boots > 2 || fate.late) && supervised {
          RollBackSelf(left, fate);
          return Down;
        }
        Put(left, fate);
        return Surviving(running, true, fate);
      }
      if left.from == running && left.to != running && !left.Settled() {
        Put(left.(rolledBack := true, token := None), fate);
      }
      return Surviving(running, false, fate);
    }

    /** The branch of `Started` that gives up: the binary first, then the record. */
    method RollBackSelf(left: Handover, fate: Fate)
      modifies this
      ensures binary == if fate.restored && !fate.death.BeforeRestore? then left.from else old(binary)
      ensures record == if fate.Lands() then Some(left.(rolledBack := true, token := None)) else old(record)
    {
      if fate.restored && !fate.death.BeforeRestore? {
        binary := left.from;
      }
      Put(left.(rolledBack := true, token := None), fate);
    }

    /** Records that the version running is healthy, unless another is in the record or it was rolled back. */
    method Prove(running: Version, written: bool)
      modifies this
      ensures Left() == Proved(old(Left()), running, written)
    {
      if record.None? || record.value.to != running || record.value.rolledBack {
        return;
      }
      if written {
        record := Some(record.value.(healthy := true));
      }
    }
  }

  function Proved(disk: Disk, running: Version, written: bool): Disk {
    if disk.record.None? || disk.record.value.to != running || disk.record.value.rolledBack || !written then disk
    else disk.(record := Some(disk.record.value.(healthy := true)))
  }

  /** A proof is recorded exactly when it can be written and the record is of the version running, not rolled back,
      and changes nothing else. */
  lemma ProvesExactly(disk: Disk, running: Version, written: bool)
    ensures var after := Proved(disk, running, written);
            && after.binary == disk.binary && (after.record.Some? <==> disk.record.Some?)
            && (disk.record.Some? ==>
                  && after.record.value == disk.record.value.(healthy := after.record.value.healthy)
                  && (after.Healthy() <==> disk.Healthy() || (written && disk.record.value.to == running
                                                              && !disk.record.value.rolledBack)))
  {
  }

  // ----- any series of starts and crashes -----

  datatype Event = Starts(fate: Fate) | Proves(written: bool) | Dies

  predicate Enabled(s: State, event: Event) {
    match event
    case Starts(_) => s.process.Down?
    case Proves(_) => s.process.Up? && s.process.proving
    case Dies => s.process.Up?
  }

  function Next(s: State, event: Event, supervised: bool): State {
    match event
    case Starts(fate) => Started(s.disk, supervised, fate)
    case Proves(written) =>
      if s.process.Up? then State(Proved(s.disk, s.process.running, written), s.process.(proving := false)) else s
    case Dies => s.(process := Down)
  }

  predicate Happens(s: State, events: seq<Event>, supervised: bool)
    decreases |events|
  {
    events == [] || (Enabled(s, events[0]) && Happens(Next(s, events[0], supervised), events[1..], supervised))
  }

  function After(s: State, events: seq<Event>, supervised: bool): State
    decreases |events|
  {
    if events == [] then s else After(Next(s, events[0], supervised), events[1..], supervised)
  }

  /** How many of the starts are of a new version not yet settled. */
  function Attempts(s: State, events: seq<Event>, supervised: bool): nat
    decreases |events|
  {
    if events == [] then 0
    else (if events[0].Starts? && s.disk.Unproved() then 1 else 0)
         + Attempts(Next(s, events[0], supervised), events[1..], supervised)
  }

  /** How many of those left no count behind: they died before the record was written, or could not write it. */
  function Lost(s: State, events: seq<Event>, supervised: bool): nat
    decreases |events|
  {
    if events == [] then 0
    else (if events[0].Starts? && s.disk.Unproved() && !events[0].fate.Lands() then 1 else 0)
         + Lost(Next(s, events[0], supervised), events[1..], supervised)
  }

  /** What holds between a hand-over and its settling: a third start is the one that rolls back, and a
      process still proving itself is of a version not yet settled. */
  predicate Counted(s: State, supervised: bool) {
    && s.disk.record.Some?
    && (supervised ==> s.disk.Boots() <= 3 && (s.disk.Boots() == 3 ==> s.disk.RolledBack()))
    && (s.process.Up? && s.process.proving ==> !s.disk.Settled())
  }

  lemma CountedStep(s: State, event: Event, supervised: bool)
    requires Counted(s, supervised) && Enabled(s, event)
    ensures Counted(Next(s, event, supervised), supervised)
  {
  }

  /** Every unsettled start is counted on disk but those that left nothing, and under a supervisor no more than
      three are ever counted: so an unproved release gets at most three starts and one more for each count lost. */
  lemma {:induction false} StartsAreCounted(s: State, events: seq<Event>, supervised: bool)
    requires Counted(s, supervised) && Happens(s, events, supervised)
    ensures Counted(After(s, events, supervised), supervised)
    ensures After(s, events, supervised).disk.Boots() + Lost(s, events, supervised)
            == s.disk.Boots() + Attempts(s, events, supervised)
    ensures supervised ==> s.disk.Boots() + Attempts(s, events, supervised) <= 3 + Lost(s, events, supervised)
    decreases |events|
  {
    if events != [] {
      CountedStep(s, events[0], supervised);
      StartsAreCounted(Next(s, events[0], supervised), events[1..], supervised);
    }
  }

  /** When every count lands, a release that has not proved itself gets at most three starts in any series of
      starts and crashes under a supervisor, and the third only puts the previous binary back. */
  lemma AtMostThreeStarts(s: State, events: seq<Event>)
    requires Counted(s, true) && s.disk.Boots() == 0 && Happens(s, events, true)
    requires Lost(s, events, true) == 0
    ensures Attempts(s, events, true) <= 3
    ensures Attempts(s, events, true) == 3 ==>
              After(s, events, true).disk.RolledBack()
  {
    StartsAreCounted(s, events, true);
  }

  lemma ThirdStartOnlyRestores(disk: Disk, fate: Fate)
    requires disk.Unproved() && disk.Boots() >= 2
    ensures Started(disk, true, fate).process.Down?
    ensures fate.Lands() ==> Started(disk, true, fate).disk.Settled()
    ensures Started(disk, true, fate).disk.binary
            == if fate.restored && !fate.death.BeforeRestore? then disk.record.value.from else disk.binary
  {
  }

  /** A count is lost exactly when a start dies, or cannot write, before its record lands; and a release all
      of whose starts do so is started any number of times. */
  lemma {:induction false} LostCountsNeverEnd(s: State, n: nat) returns (events: seq<Event>)
    requires s.process.Down? && s.disk.Unproved() && s.disk.Boots() < 2
    ensures Happens(s, events, true) && Attempts(s, events, true) == n == Lost(s, events, true)
    ensures After(s, events, true) == s
    decreases n
  {
    if n == 0 {
      events := [];
    } else {
      var rest := LostCountsNeverEnd(s, n - 1);
      var dies := Starts(Fate(false, true, true, BeforeWrite));
      assert Next(s, dies, true) == s;
      events := [dies] + rest;
      assert events[1..] == rest;
    }
  }

  /** A settled hand-over is never settled again, nor its starts counted or its binary changed. */
  lemma {:induction false} SettledOnce(s: State, events: seq<Event>, supervised: bool)
    requires Counted(s, supervised) && s.disk.Settled() && Happens(s, events, supervised)
    ensures After(s, events, supervised).disk == s.disk
    ensures Attempts(s, events, supervised) == 0
    decreases |events|
  {
    if events != [] {
      SettledOnce(Next(s, events[0], supervised), events[1..], supervised);
    }
  }

  /** Starts, proofs and deaths alone never leave a hand-over both proved healthy and rolled back. What undoes
      an install in place can: `Updating.BothVerdictsExactlyWhen`. */
  lemma {:induction false} OneVerdict(s: State, events: seq<Event>, supervised: bool)
    requires Counted(s, supervised) && Happens(s, events, supervised)
    requires !(s.disk.Healthy() && s.disk.RolledBack())
    ensures var after := After(s, events, supervised).disk; !(after.Healthy() && after.RolledBack())
    decreases |events|
  {
    if events != [] {
      CountedStep(s, events[0], supervised);
      OneVerdict(Next(s, events[0], supervised), events[1..], supervised);
    }
  }

  /** Once rolled back by a start of its own, the release is what every later start runs exactly when its
      previous binary could not be put back: it then starts as though it were settled. */
  lemma RolledBackForGood(disk: Disk, fate: Fate, events: seq<Event>)
    requires disk.Unproved() && disk.Boots() <= 2 && disk.record.value.from != disk.record.value.to
    requires Overdue(disk.record.value.(boots := disk.Boots() + 1), fate) && fate.Lands()
    requires Happens(Started(disk, true, fate), events, true)
    ensures var after := After(Started(disk, true, fate), events, true);
            after.disk.RolledBack() && (after.disk.binary == disk.record.value.to <==> !fate.restored)
  {
    SettledOnce(Started(disk, true, fate), events, true);
  }

  /** Which version a factory is left on: whenever a release has been rolled back, the one before it, as long
      as every start that tries puts it back and says so. */
  ghost predicate LeftRight(disk: Disk, from: Version, to: Version) {
    && disk.record.Some? && disk.record.value.from == from && disk.record.value.to == to
    && (disk.binary == from || disk.binary == to) && (disk.RolledBack() ==> disk.binary == from)
  }

  predicate Lucky(event: Event) {
    event.Starts? ==> event.fate.Lands() && event.fate.restored
  }

  lemma LeftRightStep(s: State, event: Event, from: Version, to: Version)
    requires LeftRight(s.disk, from, to) && from != to && Lucky(event)
    ensures LeftRight(Next(s, event, true).disk, from, to)
  {
  }

  /** Any series of starts, proofs and deaths in which they do leaves a release either unsettled, proved
      healthy, or rolled back with the previous version in its place; and three unproved starts do the last. */
  lemma {:induction false} EndsOnOneVersion(s: State, events: seq<Event>, from: Version, to: Version)
    requires Counted(s, true) && LeftRight(s.disk, from, to) && from != to && Happens(s, events, true)
    requires forall event :: event in events ==> Lucky(event)
    ensures LeftRight(After(s, events, true).disk, from, to) && Lost(s, events, true) == 0
    ensures s.disk.Boots() == 0 && Attempts(s, events, true) == 3 ==>
              After(s, events, true).disk.RolledBack() && After(s, events, true).disk.binary == from
    decreases |events|
  {
    hide LeftRight, Counted;
    if events != [] {
      assert events[0] in events && forall event :: event in events[1..] ==> event in events;
      CountedStep(s, events[0], true);
      LeftRightStep(s, events[0], from, to);
      EndsOnOneVersion(Next(s, events[0], true), events[1..], from, to);
    }
    if s.disk.Boots() == 0 && Attempts(s, events, true) == 3 {
      AtMostThreeStarts(s, events);
      RolledBackIsPrevious(After(s, events, true).disk, from, to);
    }
  }

  lemma RolledBackIsPrevious(disk: Disk, from: Version, to: Version)
    requires LeftRight(disk, from, to) && disk.RolledBack()
    ensures disk.binary == from
  {
  }
}
