/** Following a transcript that is still being written, a chunk at a time. */
module Stream {
  import opened Prelude
  import opened Text

  newtype byte = n: int | 0 <= n < 256

  type Bytes = seq<byte>

  const NEWLINE: byte := 10
  const RETURN: byte := 13

  /** What one look takes at first, and the most any look takes. */
  const CHUNK: nat := 0x10_0000
  const LONGEST_LINE: nat := 0x200_0000

  /** How often a read may look further before it reaches the longest line. */
  const LOOKS: nat := 6

  function LinesIn(data: Bytes): seq<Bytes> {
    LinesOf(data, NEWLINE, RETURN)
  }

  /** Just past the last newline of `data`, or zero when it has none. */
  function AfterLast(data: Bytes): (n: nat)
    ensures n <= |data|
    ensures n > 0 ==> data[n - 1] == NEWLINE
    ensures forall k :: n <= k < |data| ==> data[k] != NEWLINE
    decreases |data|
  {
    if data == [] then 0
    else if data[|data| - 1] == NEWLINE then |data|
    else AfterLast(data[..|data| - 1])
  }

  /** Just past the first newline of `data`, or all of it when it has none. */
  function AfterFirst(data: Bytes): (n: nat)
    ensures n <= |data|
    ensures n < |data| ==> n > 0 && data[n - 1] == NEWLINE
    ensures n > 0 && data[n - 1] != NEWLINE ==> n == |data|
    ensures forall k :: 0 <= k < n - 1 ==> data[k] != NEWLINE
    decreases |data|
  {
    if data == [] then 0
    else if data[0] == NEWLINE then 1
    else 1 + AfterFirst(data[1..])
  }

  /** Whether a line begins at `k`. */
  predicate Boundary(data: Bytes, k: nat)
    requires k <= |data|
  {
    k == 0 || data[k - 1] == NEWLINE
  }

  /** Where the first whole line at or after `k` begins. */
  function FirstWhole(data: Bytes, k: nat): (b: nat)
    requires k <= |data|
    ensures k <= b <= |data|
  {
    if Boundary(data, k) then k else k + AfterFirst(data[k..])
  }

  /** A line longer than is waited for: no newline in as much as is ever read at once, and more after. */
  predicate TooLongAt(data: Bytes, k: nat) {
    k + LONGEST_LINE < |data| && NEWLINE !in data[k..k + LONGEST_LINE]
  }

  /** Every line is short enough to be waited for. */
  ghost predicate LinesFit(data: Bytes) {
    forall k :: 0 <= k <= |data| && Boundary(data, k) ==> !TooLongAt(data, k)
  }

  /** What one read may see of a file that is only ever added to: how long it was when it was opened,
      what each look after that saw of it, and how long it had grown by the end. Once the run is over it
      has stopped growing. A file that cannot be opened, and a look that fails, may happen at any time. */
  datatype Sight = Sight(alive: bool, readable: bool, length: nat, looks: seq<Option<Bytes>>, grown: nat)
  {
    predicate Of(whole: Bytes) {
      && |looks| == LOOKS && length <= grown <= |whole|
      && (!alive ==> length == |whole|)
      && forall k :: 0 <= k < LOOKS && looks[k].Some? ==>
           looks[k].value <= whole && length <= |looks[k].value| <= grown
    }

    /** Whether nothing failed. */
    predicate Clear() {
      readable && forall k :: 0 <= k < |looks| ==> looks[k].Some?
    }
  }

  datatype Choice = Wait | Further | TakeUpTo(n: nat)

  /** How much of what was read to take: whole lines while the run is alive or there is more to read;
      everything at the end of a run that is over; and a line as far as it goes once it is longer than
      is waited for. */
  function Choose(buffer: Bytes, reachedEnd: bool, alive: bool, longest: bool): (c: Choice)
    requires buffer != []
    ensures c.Wait? ==> reachedEnd && alive && NEWLINE !in buffer
    ensures c.Further? ==> !reachedEnd && !longest && NEWLINE !in buffer
    ensures c.TakeUpTo? ==> 0 < c.n <= |buffer|
    ensures c.TakeUpTo? ==>
      if reachedEnd && !alive then c.n == |buffer|
      else if NEWLINE in buffer then c.n == AfterLast(buffer)
      else c.n == |buffer| && longest && !reachedEnd
  {
    var complete := AfterLast(buffer);
    if reachedEnd && !alive then TakeUpTo(|buffer|)
    else if complete > 0 then TakeUpTo(complete)
    else if reachedEnd then Wait
    else if !longest then Further
    else TakeUpTo(|buffer|)
  }

  /** Where taking `n` bytes of what was read from `from` ends. */
  lemma TakenWithin(whole: Bytes, view: Bytes, from: nat, limit: nat, buffer: Bytes, n: nat, sight: Sight)
    requires sight.Of(whole) && view <= whole && from <= sight.length <= |view|
    requires limit <= LONGEST_LINE
    requires buffer == view[from..Min(from + limit, |view|)] && buffer != []
    requires Choose(buffer, from + |buffer| >= sight.length, sight.alive, limit >= LONGEST_LINE) == TakeUpTo(n)
    requires |view| <= sight.grown
    ensures Takes(whole, from, sight,
                  Found(buffer[..n], from == 0 || view[from - 1] == NEWLINE, from + |buffer| >= sight.length))
  {
    var reachedEnd := from + |buffer| >= sight.length;
    assert forall k :: 0 <= k < |buffer| ==> buffer[k] == whole[from + k];
    assert buffer[..n] == whole[from..from + n];
    if reachedEnd && !sight.alive {
    } else if NEWLINE in buffer {
      assert buffer[n - 1] == whole[from + n - 1];
      forall k | from + n <= k < from + |buffer| ensures whole[k] != NEWLINE {
        assert buffer[k - from] == whole[k];
      }
    } else {
      assert |buffer| == LONGEST_LINE;
      assert whole[from..from + LONGEST_LINE] == buffer;
    }
  }

  lemma WaitsForMore(whole: Bytes, view: Bytes, from: nat, buffer: Bytes, sight: Sight)
    requires sight.alive && view <= whole && from <= sight.length <= |view|
    requires from + |buffer| <= |view| && buffer == view[from..from + |buffer|] && from + |buffer| >= sight.length
    requires NEWLINE !in buffer
    ensures CaughtUp(whole, sight, from)
  {
    forall k | from <= k < sight.length ensures whole[k] != NEWLINE {
      assert whole[k] == buffer[k - from];
    }
  }

  /** A read never goes back, goes forward whenever it hands anything over, and says there is more only
      when it went forward. */
  predicate Advanced(from: nat, to: nat, lines: seq<Bytes>, more: bool) {
    from <= to && (more || lines != [] ==> from < to)
  }

  /** What a read takes: the bytes, whether they begin a line, and whether they reach what was there. */
  datatype Found = Found(data: Bytes, atLine: bool, reachedEnd: bool)

  /** What was taken is what is there; it ends a line or the file, or is as much as is waited for of a
      line too long; and when it reaches what was there, nothing is left that may be sent, and otherwise more was. */
  ghost predicate Takes(whole: Bytes, from: nat, sight: Sight, f: Found) {
    && from <= |whole|
    && f.data != [] && from + |f.data| <= |whole| && from + |f.data| <= sight.grown
    && f.data == whole[from..from + |f.data|]
    && f.atLine == Boundary(whole, from)
    && (Boundary(whole, from + |f.data|) || (!sight.alive && from + |f.data| == |whole|)
        || (TooLongAt(whole, from) && |f.data| == LONGEST_LINE))
    && (if f.reachedEnd then CaughtUp(whole, sight, from + |f.data|) else from + |f.data| < sight.length)
  }

  /** Reads from `from`, looking further while all of it is one unfinished line. */
  method LookFrom(ghost whole: Bytes, from: nat, sight: Sight) returns (found: Option<Found>)
    requires sight.Of(whole) && from <= sight.length
    ensures match found
            case None => sight.Clear() ==> CaughtUp(whole, sight, from)
            case Some(f) => Takes(whole, from, sight, f)
  {
    var limit, k := CHUNK, 0;
    while true
      invariant 0 <= k < LOOKS && limit == LimitAt(k)
      decreases LOOKS - k
    {
      if sight.looks[k].None? {
        return None;
      }
      var view := sight.looks[k].value;
      var buffer := view[from..Min(from + limit, |view|)];
      if buffer == [] {
        return None;
      }
      var reachedEnd := from + |buffer| >= sight.length;
      var choice := Choose(buffer, reachedEnd, sight.alive, limit >= LONGEST_LINE);
      if choice.Wait? {
        WaitsForMore(whole, view, from, buffer, sight);
        return None;
      }
      LimitReaches(k);
      if choice.TakeUpTo? {
        TakenWithin(whole, view, from, limit, buffer, choice.n, sight);
        return Some(Found(buffer[..choice.n], from == 0 || view[from - 1] == NEWLINE, reachedEnd));
      }
      LimitGrows(k);
      limit, k := limit * 2, k + 1;
    }
  }

  /** A viewer following a transcript. */
  class Follow {
    var offset: nat
    var started: bool

    /** The transcript as it will be once the run is over, where this viewer began reading it, and every
        line it has been sent. */
    ghost const whole: Bytes
    ghost var origin: nat
    ghost var sent: seq<Bytes>

    /** The viewer has been sent exactly the whole lines between where it began and where it is. */
    ghost predicate Faithful()
      reads this
    {
      FaithfulTo(whole, started, origin, offset, sent)
    }

    /** Begins at byte `after`: zero, or an offset a viewer was last sent, or any other. */
    constructor (after: nat, ghost whole: Bytes)
      ensures this.whole == whole && offset == origin == after && sent == [] && started == (after == 0)
      ensures Faithful()
    {
      offset, started := after, after == 0;
      this.whole, origin, sent := whole, after, [];
      new;
      if after == 0 {
        assert whole[0..0] == [];
      }
    }

    /** One read: what it hands over, where it leaves the viewer, and what is then left. */
    method Read(sight: Sight) returns (lines: seq<Bytes>, more: bool)
      requires Faithful() && sight.Of(whole)
      requires started ==> offset <= sight.length
      modifies this
      ensures var from := if sight.readable then Min(old(offset), sight.length) else old(offset);
              && Advanced(from, offset, lines, more)
              && (Faithful() || (TooLongAt(whole, from) && offset == from + LONGEST_LINE))
              && (sight.alive && from < offset ==>
                    offset <= |whole| && (Boundary(whole, offset) || TooLongAt(whole, from)))
              && origin == if old(started) then old(origin) else from
      ensures sent == old(sent) + lines
      ensures old(started) ==> started
      ensures started ==> offset <= sight.grown
      ensures if more then offset < sight.length else sight.Clear() ==> CaughtUp(whole, sight, offset)
    {
      if !sight.readable {
        return [], false;
      }
      if offset > sight.length {
        offset := sight.length;
      }
      if !started {
        origin := offset;
      }
      var found := LookFrom(whole, offset, sight);
      if found.None? {
        return [], false;
      }
      lines := Deliver(found.value.data, found.value.atLine);
      more := !found.value.reachedEnd;
    }

    /** Hands over the lines of what was read, from the first whole one when resuming mid-line. */
    method Deliver(data: Bytes, atLine: bool) returns (lines: seq<Bytes>)
      requires Faithful() && data != [] && offset + |data| <= |whole|
      requires data == whole[offset..offset + |data|] && atLine == Boundary(whole, offset)
      modifies this
      ensures offset == old(offset) + |data| && started && origin == old(origin)
      ensures sent == old(sent) + lines
      ensures Boundary(whole, offset) || offset == |whole| ==> Faithful()
    {
      lines := LinesIn(Whole(started || atLine, data));
      DeliveredNext(whole, started, origin, offset, sent, data);
      started, offset, sent := true, offset + |data|, sent + lines;
    }
  }

  /** `sent` is the lines from the first whole one at or after `origin` up to `offset`. */
  ghost predicate Delivered(whole: Bytes, origin: nat, offset: nat, sent: seq<Bytes>)
    requires origin <= offset <= |whole|
  {
    && (Boundary(whole, offset) || offset == |whole|)
    && FirstWhole(whole, origin) <= offset
    && sent == LinesIn(whole[FirstWhole(whole, origin)..offset])
  }

  ghost predicate FaithfulTo(whole: Bytes, started: bool, origin: nat, offset: nat, sent: seq<Bytes>) {
    && (!started ==> offset == origin && sent == [])
    && (started ==> origin <= offset <= |whole| && Delivered(whole, origin, offset, sent))
  }

  /** The part of what was read to show: all of it, or from the next whole line on. */
  function Whole(atLine: bool, data: Bytes): Bytes {
    if atLine then data else data[AfterFirst(data)..]
  }

  /** Nothing is left that may be sent now: no whole line while the run is alive, nothing at all once
      it is over. */
  ghost predicate CaughtUp(whole: Bytes, sight: Sight, offset: nat) {
    if sight.alive then forall k :: offset <= k < sight.length && k < |whole| ==> whole[k] != NEWLINE
    else offset >= |whole|
  }

  function LimitAt(k: nat): (limit: nat)
    ensures limit >= CHUNK
  {
    if k == 0 then CHUNK else 2 * LimitAt(k - 1)
  }

  lemma LimitGrows(k: nat)
    requires k < LOOKS && LimitAt(k) < LONGEST_LINE
    ensures k + 1 < LOOKS
  {
    LimitReaches(5);
    assert k == 5 ==> LimitAt(k) == LONGEST_LINE;
  }

  lemma LimitReaches(k: nat)
    requires k < LOOKS
    ensures LimitAt(k) <= LONGEST_LINE
    ensures LimitAt(5) == LONGEST_LINE
  {
    assert LimitAt(1) == 0x20_0000 && LimitAt(2) == 0x40_0000 && LimitAt(3) == 0x80_0000;
    assert LimitAt(4) == 0x100_0000 && LimitAt(5) == 0x200_0000;
  }

  // ----- lines and cuts -----

  /** Cutting at a line's beginning keeps every line whole. */
  lemma LinesJoin(whole: Bytes, a: nat, b: nat, c: nat)
    requires a <= b <= c <= |whole| && Boundary(whole, b)
    ensures LinesIn(whole[a..c]) == LinesIn(whole[a..b]) + LinesIn(whole[b..c])
  {
    if a == b {
      assert whole[a..b] == [] && whole[a..c] == whole[b..c];
    } else {
      var front := whole[a..b - 1];
      assert whole[a..b] == front + [NEWLINE];
      assert whole[a..c] == front + [NEWLINE] + whole[b..c];
      LinesConcat(front, NEWLINE, RETURN, whole[b..c]);
    }
  }

  lemma {:induction false} AfterFirstOfMore(data: Bytes, more: Bytes)
    ensures NEWLINE in data ==> AfterFirst(data + more) == AfterFirst(data)
    decreases |data|
  {
    if data != [] && data[0] != NEWLINE {
      assert (data + more)[1..] == data[1..] + more;
      AfterFirstOfMore(data[1..], more);
    }
  }

  /** The first whole line after `k` is where the bytes up to `e` say it is, once they end a line. */
  lemma FirstWholeWithin(whole: Bytes, k: nat, e: nat)
    requires k < e <= |whole| && !Boundary(whole, k)
    ensures Boundary(whole, e) || e == |whole| ==> FirstWhole(whole, k) == k + AfterFirst(whole[k..e])
  {
    if Boundary(whole, e) {
      assert whole[k..e][e - 1 - k] == NEWLINE;
      assert whole[k..e] + whole[e..] == whole[k..];
      AfterFirstOfMore(whole[k..e], whole[e..]);
    } else if e == |whole| {
      assert whole[k..e] == whole[k..];
    }
  }

  // ----- what one read adds -----

  /** A read that goes on from where the last one ended. */
  lemma DeliveredMore(whole: Bytes, origin: nat, at: nat, sent: seq<Bytes>, e: nat)
    requires origin <= at < e <= |whole| && Delivered(whole, origin, at, sent)
    ensures Boundary(whole, e) || e == |whole| ==>
              Delivered(whole, origin, e, sent + LinesIn(whole[at..e]))
  {
    LinesJoin(whole, FirstWhole(whole, origin), at, e);
  }

  /** The first read, which begins at the next whole line when it was asked to begin inside one. */
  lemma DeliveredFirst(whole: Bytes, at: nat, e: nat, text: Bytes)
    requires at < e <= |whole|
    requires text == if Boundary(whole, at) then whole[at..e] else whole[at..e][AfterFirst(whole[at..e])..]
    ensures Boundary(whole, e) || e == |whole| ==> Delivered(whole, at, e, LinesIn(text))
  {
    if (Boundary(whole, e) || e == |whole|) && !Boundary(whole, at) {
      FirstWholeWithin(whole, at, e);
      assert text == whole[FirstWhole(whole, at)..e];
    }
  }

  lemma DeliveredNext(whole: Bytes, started: bool, origin: nat, at: nat, sent: seq<Bytes>, data: Bytes)
    requires FaithfulTo(whole, started, origin, at, sent)
    requires data != [] && at + |data| <= |whole| && data == whole[at..at + |data|]
    ensures Boundary(whole, at + |data|) || at + |data| == |whole| ==>
              FaithfulTo(whole, true, origin, at + |data|,
                         sent + LinesIn(Whole(started || Boundary(whole, at), data)))
  {
    if started {
      DeliveredMore(whole, origin, at, sent, at + |data|);
    } else {
      var text := Whole(Boundary(whole, at), data);
      DeliveredFirst(whole, at, at + |data|, text);
      assert [] + LinesIn(text) == LinesIn(text);
    }
  }

  /** When every line fits, no read ever cuts one: not even one that began inside a line. */
  lemma NeverTooLong(whole: Bytes, k: nat)
    requires LinesFit(whole) && k <= |whole|
    ensures !TooLongAt(whole, k)
  {
    var p := AfterLast(whole[..k]);
    assert p > 0 ==> whole[p - 1] == whole[..k][p - 1];
    assert Boundary(whole, p) && !TooLongAt(whole, p);
    if k + LONGEST_LINE < |whole| {
      var line := whole[p..p + LONGEST_LINE];
      var i :| 0 <= i < |line| && line[i] == NEWLINE;
      assert whole[p + i] == NEWLINE;
      assert p + i >= k;
      assert whole[k..k + LONGEST_LINE][p + i - k] == NEWLINE;
    }
  }

  /** Resuming from an offset a viewer was sent loses no line and repeats none: what was sent before
      and what is sent after are together the lines of the whole stretch. */
  lemma ResumingIsSeamless(
    whole: Bytes, origin: nat, at: nat, before: seq<Bytes>, end: nat, after: seq<Bytes>)
    requires origin <= at <= end <= |whole|
    requires Delivered(whole, origin, at, before) && Delivered(whole, at, end, after)
    ensures Delivered(whole, origin, end, before + after)
  {
    if Boundary(whole, at) {
      LinesJoin(whole, FirstWhole(whole, origin), at, end);
    } else {
      assert at == |whole| && whole[at..end] == [];
      assert before + after == before;
    }
  }

  /** The file is only added to from one read to the next. */
  ghost predicate Appended(whole: Bytes, sights: seq<Sight>) {
    && (forall i :: 0 <= i < |sights| ==> sights[i].Of(whole))
    && (forall i, j :: 0 <= i < j < |sights| ==> sights[i].grown <= sights[j].length)
  }

  /** Follows a transcript through any series of reads, until the run is over and all of it is read.
      When every line fits, what the viewer is sent is exactly the lines of the file, in order, from the
      first whole line at or after where it began: none lost, none repeated, none half-written. */
  method FollowToEnd(follow: Follow, sights: seq<Sight>) returns (done: bool)
    requires follow.Faithful()
    requires follow.started ==> forall j :: 0 <= j < |sights| ==> follow.offset <= sights[j].length
    requires Appended(follow.whole, sights) && LinesFit(follow.whole)
    modifies follow
    ensures follow.Faithful()
    ensures done && (forall i :: 0 <= i < |sights| ==> sights[i].Clear()) ==>
              follow.offset == |follow.whole|
              && follow.sent == LinesIn(follow.whole[FirstWhole(follow.whole, follow.origin)..])
  {
    done := false;
    for k := 0 to |sights|
      invariant follow.Faithful() && !done
      invariant follow.started ==> forall j :: k <= j < |sights| ==> follow.offset <= sights[j].length
    {
      ghost var from := if sights[k].readable then Min(follow.offset, sights[k].length) else follow.offset;
      if from <= |follow.whole| {
        NeverTooLong(follow.whole, from);
      }
      var lines, more := follow.Read(sights[k]);
      if !sights[k].alive && !more {
        assert forall b :: 0 <= b <= |follow.whole| ==> follow.whole[b..|follow.whole|] == follow.whole[b..];
        assert sights[k].Clear() && !follow.started ==> follow.whole[follow.origin..] == [];
        done := true;
        return;
      }
    }
  }
}
