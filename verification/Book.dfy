/** Lines as links and the characters between them, and texts as lines and blocks of code. */
module Book {
  import opened Paths
  import opened Prelude
  import opened Text

  const REPOSITORY := "https://github.com/KotkaZ/layover-project"
  const MIRROR := "book/src/design"

  // ----- the links on a line -----

  /** A character of a line outside its links, or an inline link from its `](` to its `)`. */
  datatype Piece = Plain(c: char) | Link(target: string, title: string)

  type Change = string -> Option<string>

  /** Where the parenthesis closes that leaves none of `depth` open. */
  function Closing(s: string, depth: nat): (end: Option<nat>)
    requires depth > 0
    ensures end.Some? ==> end.value < |s| && s[end.value] == ')'
    decreases |s|
  {
    if s == [] then None
    else if s[0] == ')' && depth == 1 then Some(0)
    else match Closing(s[1..], if s[0] == '(' then depth + 1 else if s[0] == ')' then depth - 1 else depth)
      case None => None
      case Some(end) => Some(end + 1)
  }

  /** How much of `inside` comes before its first white space. */
  function TargetLength(inside: string): (n: nat)
    ensures n <= |inside|
    ensures forall i :: 0 <= i < n ==> !IsWhitespace(inside[i])
    ensures n < |inside| ==> IsWhitespace(inside[n])
    decreases |inside|
  {
    if inside == [] || IsWhitespace(inside[0]) then 0 else 1 + TargetLength(inside[1..])
  }

  function LinkOf(inside: string): Piece {
    Link(inside[..TargetLength(inside)], inside[TargetLength(inside)..])
  }

  /** Whether `line` starts with a link: a `](` whose parenthesis closes. */
  predicate IsLink(line: string) {
    |line| >= 2 && line[0] == ']' && line[1] == '(' && Closing(line[2..], 1).Some?
  }

  function Inside(line: string): string
    requires IsLink(line)
  {
    line[2..][..Closing(line[2..], 1).value]
  }

  function After(line: string): (rest: string)
    requires IsLink(line)
    ensures |rest| < |line|
  {
    line[2..][Closing(line[2..], 1).value + 1..]
  }

  function Parse(line: string): seq<Piece>
    decreases |line|
  {
    if line == [] then []
    else if IsLink(line) then [LinkOf(Inside(line))] + Parse(After(line))
    else [Plain(line[0])] + Parse(line[1..])
  }

  function Retargeted(piece: Piece, change: Change): Piece {
    match piece
    case Plain(_) => piece
    case Link(target, title) =>
      match change(target)
      case Some(moved) => Link(moved, title)
      case None => piece
  }

  function Write(piece: Piece): string {
    match piece
    case Plain(c) => [c]
    case Link(target, title) => "](" + target + title + ")"
  }

  function Render(pieces: seq<Piece>, change: Change): string {
    if pieces == [] then [] else Write(Retargeted(pieces[0], change)) + Render(pieces[1..], change)
  }

  lemma RenderLink(line: string, change: Change)
    requires IsLink(line)
    ensures Render(Parse(line), change)
            == Write(Retargeted(LinkOf(Inside(line)), change)) + Render(Parse(After(line)), change)
  {
    assert Parse(line)[1..] == Parse(After(line));
  }

  lemma RenderPlain(line: string, change: Change)
    requires line != [] && !IsLink(line)
    ensures Render(Parse(line), change) == [line[0]] + Render(Parse(line[1..]), change)
  {
    assert Parse(line)[1..] == Parse(line[1..]);
  }

  lemma NotALink(line: string, index: nat)
    requires index < |line|
    requires index + 1 < |line| && line[index] == ']' && line[index + 1] == '(' ==>
               Closing(line[index + 2..], 1).None?
    ensures !IsLink(line[index..])
  {
    assert index + 2 <= |line| ==> line[index..][2..] == line[index + 2..];
  }

  lemma NothingLeft(line: string, change: Change)
    ensures Render(Parse(line[|line|..]), change) == []
  {
  }

  lemma PlainStep(line: string, index: nat, out: string, change: Change)
    requires index < |line| && !IsLink(line[index..])
    ensures out + Render(Parse(line[index..]), change) == out + [line[index]] + Render(Parse(line[index + 1..]), change)
  {
    RenderPlain(line[index..], change);
    assert line[index..][1..] == line[index + 1..];
  }

  lemma LinkStep(line: string, index: nat, end: nat, out: string, change: Change)
    requires index + 2 <= end < |line| && line[index] == ']' && line[index + 1] == '('
    requires Closing(line[index + 2..], 1) == Some(end - (index + 2))
    ensures out + Render(Parse(line[index..]), change)
            == out + Write(Retargeted(LinkOf(line[index + 2..end]), change)) + Render(Parse(line[end + 1..]), change)
  {
    var rest := line[index..];
    assert rest[2..] == line[index + 2..];
    assert Inside(rest) == line[index + 2..end];
    assert After(rest) == line[end + 1..];
    RenderLink(rest, change);
  }

  /** The index loop over a line, against `Parse` and `Render`. */
  method MapLinks(line: string, change: Change) returns (out: string)
    ensures out == Render(Parse(line), change)
  {
    hide *;
    out := "";
    var index := 0;
    assert line[0..] == line;
    ghost var whole := Render(Parse(line), change);
    NothingLeft(line, change);
    while index < |line|
      invariant index <= |line|
      invariant out + Render(Parse(line[index..]), change) == whole
    {
      if line[index] != ']' || index + 1 == |line| || line[index + 1] != '(' {
        NotALink(line, index);
        PlainStep(line, index, out, change);
        out := out + [line[index]];
        index := index + 1;
      } else {
        var end := FindClosing(line, index + 2);
        if end == |line| {
          NotALink(line, index);
          PlainStep(line, index, out, change);
          out := out + [line[index]];
          index := index + 1;
        } else {
          var link := WriteLink(line[index + 2..end], change);
          LinkStep(line, index, end, out, change);
          out := out + link;
          index := end + 1;
        }
      }
    }
  }

  method WriteLink(inside: string, change: Change) returns (out: string)
    ensures out == Write(Retargeted(LinkOf(inside), change))
  {
    var length := TargetLength(inside);
    var target, title := inside[..length], inside[length..];
    out := "](";
    match change(target) {
      case Some(moved) => out := out + moved;
      case None => out := out + target;
    }
    out := out + title + ")";
  }

  function Shift(end: Option<nat>, past: nat): Option<nat> {
    match end case Some(e) => Some(past + e) case None => None
  }

  function Deeper(c: char, depth: int): int {
    if c == '(' then depth + 1 else if c == ')' then depth - 1 else depth
  }

  /** Counts parentheses from `start` on: where the one that was open closes, or the end of the line. */
  method FindClosing(line: string, start: nat) returns (end: nat)
    requires start <= |line|
    ensures end <= |line|
    ensures Closing(line[start..], 1) == if end < |line| then Some(end - start) else None
    ensures start <= end
  {
    hide Closing;
    end := start;
    var depth := 1;
    while end < |line|
      invariant start <= end <= |line| && depth > 0
      invariant Closing(line[start..], 1)
                == match Closing(line[end..], depth) case Some(e) => Some(e + end - start) case None => None
    {
      assert line[end..][1..] == line[end + 1..];
      ClosingStep(line[end..], depth);
      if line[end] == '(' {
        depth := depth + 1;
      } else if line[end] == ')' {
        depth := depth - 1;
        if depth == 0 {
          return;
        }
      }
      end := end + 1;
    }
    NoneCloses(depth);
  }

  lemma NoneCloses(depth: nat)
    requires depth > 0
    ensures Closing([], depth).None?
  {
  }

  lemma ClosingStep(s: string, depth: nat)
    requires s != [] && depth > 0
    ensures s[0] == ')' && depth == 1 ==> Closing(s, depth) == Some(0)
    ensures !(s[0] == ')' && depth == 1) ==> Closing(s, depth) == Shift(Closing(s[1..], Deeper(s[0], depth)), 1)
  {
  }

  /** Everything but the targets replaced is put back as it was: with no replacements, the whole line. */
  lemma {:induction false} NothingToChange(line: string, change: Change)
    requires forall piece :: piece in Parse(line) && piece.Link? ==> change(piece.target).None?
    ensures Render(Parse(line), change) == line
    decreases |line|
  {
    if line != [] {
      assert Parse(line)[0] in Parse(line);
      if IsLink(line) {
        CutLink(line);
        assert forall piece :: piece in Parse(After(line)) ==> piece in Parse(line);
        NothingToChange(After(line), change);
        RenderLink(line, change);
      } else {
        assert forall piece :: piece in Parse(line[1..]) ==> piece in Parse(line);
        NothingToChange(line[1..], change);
        RenderPlain(line, change);
      }
    }
  }

  /** A link as it was read, and what came after it, are the line. */
  lemma CutLink(line: string)
    requires IsLink(line)
    ensures line == Write(LinkOf(Inside(line))) + After(line)
  {
    var link := LinkOf(Inside(line));
    assert link.target + link.title == Inside(line);
    WriteIs(link);
    LinkIs(line, Closing(line[2..], 1).value);
  }

  lemma LinkIs(line: string, end: nat)
    requires |line| >= 2 && line[0] == ']' && line[1] == '(' && end < |line[2..]| && line[2..][end] == ')'
    ensures line == [']', '('] + line[2..][..end] + [')'] + line[2..][end + 1..]
  {
  }

  lemma WriteIs(link: Piece)
    requires link.Link?
    ensures Write(link) == [']', '('] + (link.target + link.title) + [')']
  {
  }

  // ----- a rewritten line reads back -----

  /** How many parentheses are open after `s`, when `depth` were before it and none of those closes. */
  function Walk(s: string, depth: nat): Option<nat>
    decreases |s|
  {
    if s == [] then Some(depth)
    else if s[0] == '(' then Walk(s[1..], depth + 1)
    else if s[0] != ')' then Walk(s[1..], depth)
    else if depth == 0 then None
    else Walk(s[1..], depth - 1)
  }

  predicate Balanced(s: string) {
    Walk(s, 0) == Some(0)
  }

  /** A change that a link can carry: it leaves the target, or replaces one whose parentheses balance by
      another, with no white space in it. */
  predicate FitsLink(piece: Piece, change: Change) {
    piece.Link? && change(piece.target).Some? ==>
      && Balanced(piece.target) && Balanced(change(piece.target).value)
      && forall c :: c in change(piece.target).value ==> !IsWhitespace(c)
  }

  predicate Fits(pieces: seq<Piece>, change: Change) {
    forall piece :: piece in pieces ==> FitsLink(piece, change)
  }

  /** A change that fits what a line holds fits its first piece, and all that come after. */
  lemma FitsOn(line: string, change: Change)
    requires line != [] && Fits(Parse(line), change)
    ensures IsLink(line) ==> FitsLink(LinkOf(Inside(line)), change) && Fits(Parse(After(line)), change)
    ensures !IsLink(line) ==> Fits(Parse(line[1..]), change)
  {
    assert Parse(line)[0] in Parse(line);
    assert IsLink(line) ==> Parse(line)[1..] == Parse(After(line));
    assert !IsLink(line) ==> Parse(line)[1..] == Parse(line[1..]);
    assert forall piece :: piece in Parse(line)[1..] ==> piece in Parse(line);
  }

  lemma {:induction false} WalkConcat(a: string, b: string, depth: nat)
    ensures Walk(a + b, depth) == match Walk(a, depth) case Some(d) => Walk(b, d) case None => None
    decreases |a|
  {
    if a == [] {
      assert a + b == b;
    } else {
      assert (a + b)[1..] == a[1..] + b;
      if a[0] != ')' || depth > 0 {
        WalkConcat(a[1..], b, if a[0] == '(' then depth + 1 else if a[0] == ')' then depth - 1 else depth);
      }
    }
  }

  lemma ClosingCons(c: char, s: string, depth: nat)
    requires depth > 0 && Deeper(c, depth) > 0
    ensures Closing([c] + s, depth) == Shift(Closing(s, Deeper(c, depth)), 1)
  {
    assert ([c] + s)[1..] == s;
  }

  lemma WalkCons(c: char, s: string, depth: nat)
    requires Walk([c] + s, depth).Some?
    ensures Deeper(c, depth) >= 0 && Walk([c] + s, depth) == Walk(s, Deeper(c, depth))
  {
    assert ([c] + s)[1..] == s;
  }

  lemma WalkNil(depth: nat)
    ensures Walk([], depth) == Some(depth)
  {
  }

  /** What balances closes nothing around it. */
  lemma {:induction false} ClosingPast(s: string, rest: string, depth: nat, open: nat)
    requires depth > open && Walk(s, open).Some?
    ensures Closing(s + rest, depth) == Shift(Closing(rest, depth - open + Walk(s, open).value), |s|)
    decreases |s|
  {
    hide Closing, Walk;
    if s == [] {
      assert s + rest == rest;
      WalkNil(open);
    } else {
      var c, t := s[0], s[1..];
      assert s == [c] + t && s + rest == [c] + (t + rest);
      WalkCons(c, t, open);
      ClosingCons(c, t + rest, depth);
      ClosingPast(t, rest, Deeper(c, depth), Deeper(c, open));
    }
  }

  lemma {:induction false} InsideBalances(s: string, open: nat)
    requires Closing(s, open + 1).Some?
    ensures Walk(s[..Closing(s, open + 1).value], open) == Some(0)
    decreases |s|
  {
    var end := Closing(s, open + 1).value;
    if end > 0 {
      assert s[..end][1..] == s[1..][..end - 1];
      InsideBalances(s[1..], if s[0] == '(' then open + 1 else if s[0] == ')' then open - 1 else open);
    }
  }

  /** A link a line can hold: its parentheses balance, and its title starts at its first white space. */
  predicate Holds(piece: Piece) {
    piece.Link? ==>
      && Balanced(piece.target + piece.title)
      && (forall c :: c in piece.target ==> !IsWhitespace(c))
      && (piece.title != [] ==> IsWhitespace(piece.title[0]))
  }

  lemma RetargetedHolds(inside: string, change: Change)
    requires Balanced(inside) && FitsLink(LinkOf(inside), change)
    ensures Holds(Retargeted(LinkOf(inside), change))
  {
    var link := LinkOf(inside);
    assert link.target + link.title == inside;
    WalkConcat(link.target, link.title, 0);
    match change(link.target) {
      case Some(moved) => WalkConcat(moved, link.title, 0);
      case None =>
    }
  }

  lemma {:induction false} TargetEnds(target: string, title: string)
    requires forall c :: c in target ==> !IsWhitespace(c)
    requires title != [] ==> IsWhitespace(title[0])
    ensures LinkOf(target + title) == Link(target, title)
  {
    var inside := target + title;
    assert forall i :: 0 <= i < |target| ==> inside[i] == target[i] && target[i] in target;
    assert title != [] ==> inside[|target|] == title[0];
  }

  lemma WrittenIsALink(inside: string, rest: string)
    requires Balanced(inside)
    ensures var line := [']', '('] + inside + [')'] + rest;
            IsLink(line) && Inside(line) == inside && After(line) == rest
  {
    var line := [']', '('] + inside + [')'] + rest;
    assert line[2..] == inside + ([')'] + rest);
    ClosingPast(inside, [')'] + rest, 1, 0);
    assert Closing([')'] + rest, 1) == Some(0);
  }

  /** A link written in front of `rest` reads back as itself. */
  lemma LinkReadsBack(link: Piece, rest: string)
    requires link.Link? && Holds(link)
    ensures Parse(Write(link) + rest) == [link] + Parse(rest)
  {
    WrittenIsALink(link.target + link.title, rest);
    WriteIs(link);
    TargetEnds(link.target, link.title);
    ParseLink(Write(link) + rest);
  }

  lemma WrittenAs(link: Piece)
    requires link.Link?
    ensures Write(link) == "](" + link.target + link.title + ")"
  {
  }

  /** A link is read where it is written: after text in which none begins, as its target and its title, and then
      whatever follows is read. */
  lemma {:induction false} LinksAreRead(before: string, target: string, title: string, rest: string)
    requires forall i :: 0 <= i < |before| - 1 ==> !(before[i] == ']' && before[i + 1] == '(')
    requires Holds(Link(target, title))
    ensures Parse(before + ("](" + target + title + ")") + rest)
            == seq(|before|, i requires 0 <= i < |before| => Plain(before[i])) + [Link(target, title)] + Parse(rest)
    decreases |before|
  {
    hide Parse, Holds, Closing, Write;
    var link := Link(target, title);
    var line := before + ("](" + target + title + ")") + rest;
    if before == [] {
      LinkReadsBack(link, rest);
      WrittenAs(link);
      assert line == Write(link) + rest;
    } else {
      assert line[1..] == before[1..] + ("](" + target + title + ")") + rest;
      assert !IsLink(line) by {
        assert line[0] == before[0] && line[1] == if |before| > 1 then before[1] else ']';
      }
      LinksAreRead(before[1..], target, title, rest);
      ParsePlain(line);
      assert seq(|before|, i requires 0 <= i < |before| => Plain(before[i]))
          == [Plain(before[0])] + seq(|before[1..]|, i requires 0 <= i < |before[1..]| => Plain(before[1..][i]));
    }
  }

  lemma ParseLink(line: string)
    requires IsLink(line)
    ensures Parse(line) == [LinkOf(Inside(line))] + Parse(After(line))
  {
  }

  /** A link written in front of `rest` closes nothing before it. */
  lemma LinkCloses(link: Piece, rest: string, depth: nat)
    requires link.Link? && Holds(link) && depth > 0
    ensures Closing(Write(link) + rest, depth).None? <==> Closing(rest, depth).None?
  {
    hide Closing;
    var inside := link.target + link.title;
    var last := [')'] + rest;
    assert Write(link) + rest == [']'] + (['('] + (inside + last));
    ClosingCons(']', ['('] + (inside + last), depth);
    ClosingCons('(', inside + last, depth);
    ClosingPast(inside, last, depth + 1, 0);
    ClosingCons(')', rest, depth + 1);
  }

  /** Rewriting neither opens nor closes a parenthesis outside the links. */
  lemma {:induction false} SameOutside(line: string, change: Change, depth: nat)
    requires Fits(Parse(line), change) && depth > 0
    ensures Closing(Render(Parse(line), change), depth).None? <==> Closing(line, depth).None?
    decreases |line|
  {
    if line != [] {
      FitsOn(line, change);
      if IsLink(line) {
        SameOutside(After(line), change, depth);
        LinkSameOutside(line, change, depth);
      } else {
        RenderPlain(line, change);
        var out := Render(Parse(line[1..]), change);
        assert ([line[0]] + out)[1..] == out;
        if !(line[0] == ')' && depth == 1) {
          SameOutside(line[1..], change,
                      if line[0] == '(' then depth + 1 else if line[0] == ')' then depth - 1 else depth);
        }
      }
    }
  }

  lemma LinkBalances(line: string)
    requires IsLink(line)
    ensures Balanced(Inside(line))
  {
    InsideBalances(line[2..], 0);
  }

  lemma LinkOfIsLink(inside: string, change: Change)
    ensures LinkOf(inside).Link? && Retargeted(LinkOf(inside), change).Link?
  {
  }

  lemma LinkSameOutside(line: string, change: Change, depth: nat)
    requires IsLink(line) && FitsLink(LinkOf(Inside(line)), change) && depth > 0
    requires Closing(Render(Parse(After(line)), change), depth).None? <==> Closing(After(line), depth).None?
    ensures Closing(Render(Parse(line), change), depth).None? <==> Closing(line, depth).None?
  {
    hide Closing, Parse, Render, Walk, IsLink, Inside, After, LinkOf, FitsLink;
    var link, out := LinkOf(Inside(line)), Render(Parse(After(line)), change);
    LinkBalances(line);
    LinkOfIsLink(Inside(line), change);
    RetargetedHolds(Inside(line), change);
    RenderLink(line, change);
    CutLink(line);
    NoChangeHolds(Inside(line));
    CloseTogether(Retargeted(link, change), out, link, After(line), depth);
  }

  lemma NoChangeHolds(inside: string)
    requires Balanced(inside)
    ensures Holds(LinkOf(inside))
  {
    assert LinkOf(inside).target + LinkOf(inside).title == inside;
  }

  lemma CloseTogether(link: Piece, rest: string, other: Piece, otherRest: string, depth: nat)
    requires link.Link? && Holds(link) && other.Link? && Holds(other) && depth > 0
    requires Closing(rest, depth).None? <==> Closing(otherRest, depth).None?
    ensures Closing(Write(link) + rest, depth).None? <==> Closing(Write(other) + otherRest, depth).None?
  {
    LinkCloses(link, rest, depth);
    LinkCloses(other, otherRest, depth);
  }

  lemma FirstIsKept(line: string, change: Change)
    requires line != []
    ensures Render(Parse(line), change) != [] && Render(Parse(line), change)[0] == line[0]
  {
  }

  function RetargetedAll(pieces: seq<Piece>, change: Change): seq<Piece> {
    seq(|pieces|, i requires 0 <= i < |pieces| => Retargeted(pieces[i], change))
  }

  /** The line written has the links that were read, in place, with their new targets, and no others. */
  lemma {:induction false} RewrittenReadsBack(line: string, change: Change)
    requires Fits(Parse(line), change)
    ensures Parse(Render(Parse(line), change)) == RetargetedAll(Parse(line), change)
    decreases |line|
  {
    if line != [] {
      hide Parse, Render, IsLink, Inside, After, Retargeted, FitsLink;
      FitsOn(line, change);
      if IsLink(line) {
        RewrittenReadsBack(After(line), change);
        RewrittenLink(line, change);
        ParseLink(line);
        AllCons(LinkOf(Inside(line)), Parse(After(line)), change);
      } else {
        RewrittenReadsBack(line[1..], change);
        PlainReadsBack(line, change);
        ParsePlain(line);
        AllCons(Plain(line[0]), Parse(line[1..]), change);
        PlainStays(line[0], change);
      }
    }
  }

  /** Piece by piece: text stays, and a link keeps its title and leads where it is to lead now, if anywhere new. */
  lemma RewrittenLinks(line: string, change: Change)
    requires Fits(Parse(line), change)
    ensures var before, after := Parse(line), Parse(Render(Parse(line), change));
            && |after| == |before|
            && forall k :: 0 <= k < |before| ==>
                 if before[k].Link? then
                   after[k] == Link(if change(before[k].target).Some? then change(before[k].target).value
                                    else before[k].target, before[k].title)
                 else after[k] == before[k]
  {
    hide Parse, Render;
    RewrittenReadsBack(line, change);
  }

  lemma AllCons(piece: Piece, pieces: seq<Piece>, change: Change)
    ensures RetargetedAll([piece] + pieces, change) == [Retargeted(piece, change)] + RetargetedAll(pieces, change)
  {
  }

  lemma PlainStays(c: char, change: Change)
    ensures Retargeted(Plain(c), change) == Plain(c)
  {
  }

  lemma ParsePlain(line: string)
    requires line != [] && !IsLink(line)
    ensures Parse(line) == [Plain(line[0])] + Parse(line[1..])
  {
  }

  lemma RewrittenLink(line: string, change: Change)
    requires IsLink(line) && FitsLink(LinkOf(Inside(line)), change)
    ensures Parse(Render(Parse(line), change))
            == [Retargeted(LinkOf(Inside(line)), change)] + Parse(Render(Parse(After(line)), change))
  {
    hide Closing, Parse, Render, Walk, IsLink, Inside, After, LinkOf, FitsLink;
    LinkBalances(line);
    LinkOfIsLink(Inside(line), change);
    RetargetedHolds(Inside(line), change);
    RenderLink(line, change);
    LinkReadsBack(Retargeted(LinkOf(Inside(line)), change), Render(Parse(After(line)), change));
  }

  lemma PlainReadsBack(line: string, change: Change)
    requires line != [] && !IsLink(line) && Fits(Parse(line), change)
    ensures Parse(Render(Parse(line), change)) == [Plain(line[0])] + Parse(Render(Parse(line[1..]), change))
  {
    RenderPlain(line, change);
    FitsOn(line, change);
    var out := Render(Parse(line[1..]), change);
    assert ([line[0]] + out)[1..] == out;
    if |line| > 1 && line[0] == ']' {
      FirstIsKept(line[1..], change);
      if line[1] == '(' {
        assert line[1..][1..] == line[2..];
        RenderPlain(line[1..], change);
        FitsOn(line[1..], change);
        SameOutside(line[2..], change, 1);
        assert ([line[0]] + out)[2..] == Render(Parse(line[2..]), change);
      }
    }
  }

  // ----- a document, line by line -----

  /** The lines of a text, each with its ending. */
  function InclusiveLines(text: string): (lines: seq<string>)
    ensures Concat(lines) == text
    decreases |text|
  {
    if text == [] then []
    else
      var rest := InclusiveLines(text[1..]);
      if text[0] == '\n' || rest == [] then ["" + [text[0]]] + rest
      else [[text[0]] + rest[0]] + rest[1..]
  }

  function Concat(lines: seq<string>): string {
    if lines == [] then [] else lines[0] + Concat(lines[1..])
  }

  predicate IsFence(line: string) {
    "```" <= TrimStart(line)
  }

  /** How many of the first `k` lines open or close a block of code. */
  function Fences(lines: seq<string>, k: nat): nat
    requires k <= |lines|
  {
    if k == 0 then 0 else Fences(lines, k - 1) + if IsFence(lines[k - 1]) then 1 else 0
  }

  /** A line of code: one between an odd fence and the next, or a fence itself. */
  predicate IsCode(lines: seq<string>, k: nat)
    requires k < |lines|
  {
    Fences(lines, k) % 2 == 1 || IsFence(lines[k])
  }

  function RewrittenLine(line: string, isCode: bool, change: Change): string {
    if isCode then line else Render(Parse(line), change)
  }

  function RewrittenLines(lines: seq<string>, change: Change): seq<string> {
    seq(|lines|, k requires 0 <= k < |lines| => RewrittenLine(lines[k], IsCode(lines, k), change))
  }

  lemma ConcatSnoc(lines: seq<string>, line: string)
    ensures Concat(lines + [line]) == Concat(lines) + line
  {
    if lines != [] {
      assert (lines + [line])[1..] == lines[1..] + [line];
    }
  }

  lemma NoLines(lines: seq<string>, change: Change)
    ensures |RewrittenLines(lines, change)| == |lines| && Concat(RewrittenLines(lines, change)[..0]) == []
    ensures Fences(lines, 0) == 0
  {
  }

  lemma LineOf(lines: seq<string>, k: nat, change: Change)
    requires k < |lines|
    ensures Fences(lines, k + 1) == Fences(lines, k) + if IsFence(lines[k]) then 1 else 0
    ensures |RewrittenLines(lines, change)| == |lines|
    ensures RewrittenLines(lines, change)[k]
            == if Fences(lines, k) % 2 == 1 || IsFence(lines[k]) then lines[k] else Render(Parse(lines[k]), change)
  {
  }

  /** Rewrites a text's links line by line, leaving blocks of code as they are. */
  method Rewrite(text: string, change: Change) returns (out: string)
    ensures out == Concat(RewrittenLines(InclusiveLines(text), change))
  {
    out := RewriteLines(InclusiveLines(text), change);
  }

  method RewriteLines(lines: seq<string>, change: Change) returns (out: string)
    ensures out == Concat(RewrittenLines(lines, change))
  {
    hide *;
    out := "";
    var fenced := false;
    ghost var done := RewrittenLines(lines, change);
    NoLines(lines, change);
    for k := 0 to |lines|
      invariant fenced <==> Fences(lines, k) % 2 == 1
      invariant out == Concat(done[..k])
    {
      assert done[..k + 1] == done[..k] + [done[k]];
      ConcatSnoc(done[..k], done[k]);
      LineOf(lines, k, change);
      if IsFence(lines[k]) {
        fenced := !fenced;
      }
      if fenced || IsFence(lines[k]) {
        out := out + lines[k];
      } else {
        var line := MapLinks(lines[k], change);
        out := out + line;
      }
    }
    assert done[..|lines|] == done;
  }

  /** The lines a text is cut into end where its line feeds are, and nowhere else: each but the last ends in its
      only one, and none is empty. */
  lemma {:induction false} LinesEndAtFeeds(text: string)
    ensures Concat(InclusiveLines(text)) == text
    ensures forall k :: 0 <= k < |InclusiveLines(text)| ==> EndsAtFeed(InclusiveLines(text), k)
    decreases |text|
  {
    if text != [] {
      var rest := InclusiveLines(text[1..]);
      LinesEndAtFeeds(text[1..]);
      assert forall k :: 0 <= k < |rest| ==> EndsAtFeed(rest, k);
      forall k | 0 <= k < |InclusiveLines(text)| ensures EndsAtFeed(InclusiveLines(text), k) {
        if text[0] == '\n' || rest == [] {
          assert k > 0 ==> InclusiveLines(text)[k] == rest[k - 1] && EndsAtFeed(rest, k - 1);
        } else {
          assert k > 0 ==> InclusiveLines(text)[k] == rest[k];
          assert EndsAtFeed(rest, k);
          var first := [text[0]] + rest[0];
          assert first[..|first| - 1] == [text[0]] + rest[0][..|rest[0]| - 1];
          assert k == 0 ==> InclusiveLines(text)[0] == first;
        }
      }
    }
  }

  ghost predicate EndsAtFeed(lines: seq<string>, k: nat)
    requires k < |lines|
  {
    var line := lines[k];
    line != "" && '\n' !in line[..|line| - 1] && (k + 1 < |lines| ==> line[|line| - 1] == '\n')
  }

  /** A fence is three backquotes after nothing but white space. */
  lemma FenceIs(line: string, n: nat)
    requires n <= |line| && (forall i :: 0 <= i < n ==> IsWhitespace(line[i]))
    requires n < |line| ==> !IsWhitespace(line[n])
    ensures IsFence(line) <==> "```" <= line[n..]
  {
    assert line == line[..n] + line[n..];
    DropWhilePadded(line[..n], line[n..], IsWhitespace);
  }

  /** Code stands: a fence, and every line with an odd number of fences before it, comes out as it went in; of
      every other line exactly the links are rewritten. */
  lemma CodeStands(lines: seq<string>, k: nat, change: Change)
    requires k < |lines|
    ensures |RewrittenLines(lines, change)| == |lines|
    ensures RewrittenLines(lines, change)[k]
            == if IsFence(lines[k]) || |set j: nat | j < k && IsFence(lines[j])| % 2 == 1
               then lines[k] else Render(Parse(lines[k]), change)
  {
    FencesAre(lines, k);
  }

  lemma {:induction false} FencesAre(lines: seq<string>, k: nat)
    requires k <= |lines|
    ensures Fences(lines, k) == |set j: nat | j < k && IsFence(lines[j])|
    decreases k
  {
    if k > 0 {
      FencesAre(lines, k - 1);
      var before, now := set j: nat | j < k - 1 && IsFence(lines[j]), set j: nat | j < k && IsFence(lines[j]);
      assert now == if IsFence(lines[k - 1]) then before + {k - 1} else before;
    }
  }

  /** A text with no link to change is its own page, blocks of code and all. */
  lemma NoLinksNoChange(text: string, change: Change)
    requires forall k :: 0 <= k < |InclusiveLines(text)| && !IsCode(InclusiveLines(text), k) ==>
               forall piece :: piece in Parse(InclusiveLines(text)[k]) && piece.Link? ==> change(piece.target).None?
    ensures Concat(RewrittenLines(InclusiveLines(text), change)) == text
  {
    var lines := InclusiveLines(text);
    forall k | 0 <= k < |lines| && !IsCode(lines, k) ensures RewrittenLine(lines[k], false, change) == lines[k] {
      NothingToChange(lines[k], change);
    }
    assert RewrittenLines(lines, change) == lines;
  }
}
