/** When a schedule fires, and the shortcut to the tick that collects a layover. */
module Upcoming {
  import opened Prelude

  const NANOS: int := 1_000_000_000
  const I64_MAX: nat := 0x7FFF_FFFF_FFFF_FFFF

  /** The first and last instants a timestamp can say, in nanoseconds. */
  datatype Range = Range(first: int, last: int) {
    predicate Has(t: int) {
      first <= t <= last
    }
  }

  /** A fixed interval, or a cron expression: what it gives as the next firing strictly after an instant. */
  datatype Schedule = Every(secs: nat) | Cron(next: int -> Option<int>)

  /** `r` is the least member of `matches` strictly later than `t` that a timestamp can say. */
  ghost predicate IsNext(matches: iset<int>, range: Range, t: int, r: Option<int>) {
    match r
    case Some(u) => u in matches && t < u <= range.last && forall m :: m in matches && t < m ==> u <= m
    case None => forall m :: m in matches ==> m <= t || m > range.last
  }

  /** A cron expression stands for some set of instants, and gives the least of them strictly later. */
  ghost predicate Lawful(s: Schedule, range: Range) {
    s.Cron? ==> exists matches: iset<int> :: Fires(matches, range, s.next)
  }

  ghost predicate Fires(matches: iset<int>, range: Range, next: int -> Option<int>) {
    forall t :: IsNext(matches, range, t, next(t))
  }

  function Step(secs: nat): (step: int)
    ensures step >= NANOS
  {
    Max(secs, 1) * NANOS
  }

  /** A schedule's step from `now`, unless it leaves the range. */
  function NextAfter(s: Schedule, range: Range, now: int): Option<int> {
    match s
    case Every(secs) =>
      if secs > I64_MAX || now + Step(secs) > range.last then None else Some(now + Step(secs))
    case Cron(next) => next(now)
  }

  lemma NextIsLater(s: Schedule, range: Range, now: int)
    requires Lawful(s, range)
    ensures NextAfter(s, range, now).Some? ==> now < NextAfter(s, range, now).value <= range.last
  {
    match s
    case Every(secs) => assert Step(secs) > 0;
    case Cron(next) =>
      var matches: iset<int> :| Fires(matches, range, next);
      assert IsNext(matches, range, now, next(now));
  }

  /** Where `n` steps lead, unless one of them leaves the range. */
  function Stepped(s: Schedule, range: Range, from: int, n: nat): Option<int>
    decreases n
  {
    if n == 0 then Some(from)
    else match NextAfter(s, range, from)
      case None => None
      case Some(at) => Stepped(s, range, at, n - 1)
  }

  /** An interval keeps time: so many firings later is so many times its seconds later, to the nanosecond, with none
      counted as one; and it stops exactly when that can no longer be said. */
  lemma {:induction false} IntervalKeepsTime(secs: nat, range: Range, from: int, n: nat)
    requires from <= range.last
    ensures var each := if secs == 0 then 1_000_000_000 else secs * 1_000_000_000;
            if n == 0 || (secs <= I64_MAX && from + n * each <= range.last)
            then Stepped(Every(secs), range, from, n) == Some(from + n * each)
            else Stepped(Every(secs), range, from, n) == None
    decreases n
  {
    var each := if secs == 0 then 1_000_000_000 else secs * 1_000_000_000;
    assert Step(secs) == each && each > 0;
    if n > 0 {
      assert n * each == (n - 1) * each + each && (n - 1) * each >= 0;
      if NextAfter(Every(secs), range, from).Some? {
        IntervalKeepsTime(secs, range, from + each, n - 1);
      }
    }
  }

  /** An iterator: `next` is handed over, and then stepped from when it can fire. */
  class Ticks {
    const schedule: Schedule
    const range: Range
    const now: int
    var next: Option<int>

    constructor (schedule: Schedule, range: Range, next: Option<int>, now: int)
      ensures this.schedule == schedule && this.range == range && this.now == now && this.next == next
    {
      this.schedule, this.range, this.now, this.next := schedule, range, now, next;
    }

    method Next() returns (at: Option<int>)
      modifies this
      ensures at == old(next)
      ensures next == if at.None? then None else NextAfter(schedule, range, Max(at.value, now))
    {
      at := next;
      if at.Some? {
        next := NextAfter(schedule, range, Max(at.value, now));
      }
    }
  }

  /** The first of the ticks from `next` on that fires at or after `due`. */
  ghost function Walked(s: Schedule, range: Range, next: Option<int>, now: int, due: int): Option<int>
    requires Lawful(s, range) && (next.Some? ==> next.value <= range.last) && now <= range.last
    decreases if next.None? then 0 else 1 + range.last - Max(next.value, now)
  {
    match next
    case None => None
    case Some(at) =>
      if due <= Max(at, now) then Some(at)
      else
        NextIsLater(s, range, Max(at, now));
        Walked(s, range, NextAfter(s, range, Max(at, now)), now, due)
  }

  /** The same tick, without the walk. */
  function CollectingTick(s: Schedule, range: Range, next: int, now: int, due: int): Option<int> {
    var fires := Max(next, now);
    if due <= fires then Some(next)
    else match NextAfter(s, range, fires)
      case None => None
      case Some(after) =>
        if due <= after then Some(after)
        else match s
          case Every(secs) =>
            var step := Step(secs);
            var steps := StepsOver(due - after, step);
            if range.Has(after + steps * step) then Some(after + steps * step) else None
          case Cron(_) =>
            if due - 1 < range.first then None else NextAfter(s, range, due - 1)
  }

  lemma DivisionIs(x: int, step: int, q: int, r: int)
    requires x == q * step + r && 0 <= r < step
    ensures x / step == q
  {
    var d := x / step - q;
    assert (x / step) * step == q * step + d * step;
    assert d * step == r - x % step;
    assert d >= 1 ==> d * step >= step;
    assert d <= -1 ==> d * step <= -step;
  }

  /** How many steps it takes to cover `gap`, the last perhaps overshooting. */
  function StepsOver(gap: int, step: int): int
    requires step > 0
  {
    (gap + step - 1) / step
  }

  lemma OneStepOver(gap: int, step: int)
    requires 0 < gap <= step
    ensures StepsOver(gap, step) == 1
  {
    DivisionIs(gap + step - 1, step, 1, gap - 1);
  }

  lemma MoreStepsOver(gap: int, step: int)
    requires 0 < step < gap
    ensures StepsOver(gap, step) == StepsOver(gap - step, step) + 1
    ensures StepsOver(gap, step) * step == StepsOver(gap - step, step) * step + step
    ensures StepsOver(gap - step, step) >= 1
  {
    var q, r := (gap - 1) / step, (gap - 1) % step;
    DivisionIs(gap - 1 + step, step, q + 1, r);
    assert gap - step + step - 1 == gap - 1;
    assert q <= 0 ==> q * step <= 0;
  }

  /** Walking a fixed interval from a tick before `due` lands where the division says. */
  lemma {:induction false} EveryWalks(secs: nat, range: Range, at: int, now: int, due: int)
    requires secs <= I64_MAX && now <= at < due && range.first <= at <= range.last
    ensures var landed := at + StepsOver(due - at, Step(secs)) * Step(secs);
            Walked(Every(secs), range, Some(at), now, due)
            == if range.Has(landed) then Some(landed) else None
    decreases range.last - at
  {
    var step, gap := Step(secs), due - at;
    if gap <= step {
      OneStepOver(gap, step);
    } else {
      MoreStepsOver(gap, step);
      var rest := StepsOver(gap - step, step);
      assert rest * step >= step by { assert rest >= 1; }
      if at + step <= range.last {
        EveryWalks(secs, range, at + step, now, due);
      }
    }
  }

  /** Walking a cron schedule from a tick before `due` lands on its first match at or after `due`. */
  lemma {:induction false} CronWalks(s: Schedule, matches: iset<int>, range: Range, at: int, now: int, due: int)
    requires s.Cron? && Fires(matches, range, s.next) && Lawful(s, range)
    requires now <= at < due && at <= range.last
    ensures Walked(s, range, Some(at), now, due) == s.next(due - 1)
    decreases range.last - at
  {
    var next, jump := s.next(at), s.next(due - 1);
    assert IsNext(matches, range, at, next) && IsNext(matches, range, due - 1, jump);
    if next.Some? {
      if next.value < due {
        CronWalks(s, matches, range, next.value, now, due);
      } else {
        assert jump.Some? && jump.value <= next.value <= jump.value;
      }
    }
  }

  /** The shortcut is the walk: for every schedule, next tick, current time and due time, held ticks
      and results no timestamp can say included. */
  lemma CollectingTickIsWalked(s: Schedule, range: Range, next: int, now: int, due: int)
    requires Lawful(s, range) && range.Has(next) && range.Has(now) && range.Has(due)
    ensures CollectingTick(s, range, next, now, due) == Walked(s, range, Some(next), now, due)
  {
    var fires := Max(next, now);
    if due > fires {
      NextIsLater(s, range, fires);
      var after := NextAfter(s, range, fires);
      if after.Some? && due > after.value {
        match s
        case Every(secs) => EveryWalks(secs, range, after.value, now, due);
        case Cron(f) =>
          var matches: iset<int> :| Fires(matches, range, f);
          CronWalks(s, matches, range, after.value, now, due);
      }
    }
  }

  /** Walks the ticks to the first that collects a layover due at `due`. */
  method WalkToCollecting(ticks: Ticks, due: int) returns (tick: Option<int>)
    requires Lawful(ticks.schedule, ticks.range)
    requires ticks.next.Some? && ticks.range.Has(ticks.next.value) && ticks.range.Has(ticks.now)
    requires ticks.range.Has(due)
    modifies ticks
    ensures tick == CollectingTick(ticks.schedule, ticks.range, old(ticks.next.value), ticks.now, due)
  {
    CollectingTickIsWalked(ticks.schedule, ticks.range, ticks.next.value, ticks.now, due);
    tick := ticks.Next();
    while tick.Some? && due > Max(tick.value, ticks.now)
      invariant tick.Some? ==> tick.value <= ticks.range.last
      invariant ticks.next == if tick.None? then None
                              else NextAfter(ticks.schedule, ticks.range, Max(tick.value, ticks.now))
      invariant Walked(ticks.schedule, ticks.range, tick, ticks.now, due)
                == Walked(ticks.schedule, ticks.range, old(ticks.next), ticks.now, due)
      decreases if tick.None? then 0 else 1 + ticks.range.last - Max(tick.value, ticks.now)
    {
      NextIsLater(ticks.schedule, ticks.range, Max(tick.value, ticks.now));
      tick := ticks.Next();
    }
  }

  /** A layover is collected no earlier than it is due, unless by a tick held past its time, which
      fires now; and by no tick when one before it would have done. */
  lemma {:induction false} CollectedWhenDue(s: Schedule, range: Range, next: Option<int>, now: int, due: int)
    requires Lawful(s, range) && (next.Some? ==> next.value <= range.last) && now <= range.last
    ensures var r := Walked(s, range, next, now, due);
            r.Some? ==> due <= Max(r.value, now) && next.Some? && next.value <= r.value
    ensures forall earlier :: earlier <= due && Walked(s, range, next, now, due).Some?
              ==> Walked(s, range, next, now, earlier).Some?
                  && Walked(s, range, next, now, earlier).value <= Walked(s, range, next, now, due).value
    decreases if next.None? then 0 else 1 + range.last - Max(next.value, now)
  {
    if next.Some? && due > Max(next.value, now) {
      NextIsLater(s, range, Max(next.value, now));
      CollectedWhenDue(s, range, NextAfter(s, range, Max(next.value, now)), now, due);
    }
  }
}
