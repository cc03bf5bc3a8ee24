/** Splitting and trimming, as the standard library's string functions do it. */
module Text {
  import opened Prelude

  /** The pieces of `s` between one `c` and the next. There is always at least one. */
  function Split<T(==)>(s: seq<T>, c: T): (parts: seq<seq<T>>)
    ensures |parts| > 0
    decreases |s|
  {
    if s == [] then [[]]
    else
      var rest := Split(s[1..], c);
      if s[0] == c then [[]] + rest else [[s[0]] + rest[0]] + rest[1..]
  }

  function Join<T>(parts: seq<seq<T>>, c: T): seq<T> {
    if parts == [] then []
    else if |parts| == 1 then parts[0]
    else parts[0] + [c] + Join(parts[1..], c)
  }

  lemma {:induction false} SplitHasNone<T>(s: seq<T>, c: T)
    ensures forall p :: p in Split(s, c) ==> c !in p
    decreases |s|
  {
    if s != [] {
      SplitHasNone(s[1..], c);
    }
  }

  lemma {:induction false} SplitPlain<T>(s: seq<T>, c: T)
    requires c !in s
    ensures Split(s, c) == [s]
    decreases |s|
  {
    if s != [] {
      SplitPlain(s[1..], c);
      assert [s[0]] + s[1..] == s;
    }
  }

  /** `x` put before the first of `parts`, or before them all when it is the separator. */
  function Before<T(==)>(x: T, parts: seq<seq<T>>, c: T): seq<seq<T>>
    requires parts != []
  {
    if x == c then [[]] + parts else [[x] + parts[0]] + parts[1..]
  }

  lemma SplitCons<T>(x: T, s: seq<T>, c: T)
    ensures Split([x] + s, c) == Before(x, Split(s, c), c)
  {
    assert ([x] + s)[1..] == s;
  }

  lemma BeforeConcat<T>(x: T, a: seq<seq<T>>, b: seq<seq<T>>, c: T)
    requires a != []
    ensures Before(x, a + b, c) == Before(x, a, c) + b
  {
    assert (a + b)[0] == a[0] && (a + b)[1..] == a[1..] + b;
  }

  lemma {:induction false} SplitConcat<T>(a: seq<T>, c: T, b: seq<T>)
    ensures Split(a + [c] + b, c) == Split(a, c) + Split(b, c)
    decreases |a|
  {
    if a == [] {
      assert a + [c] + b == [c] + b;
      SplitCons(c, b, c);
    } else {
      assert a + [c] + b == [a[0]] + (a[1..] + [c] + b) && a == [a[0]] + a[1..];
      SplitConcat(a[1..], c, b);
      SplitCons(a[0], a[1..] + [c] + b, c);
      SplitCons(a[0], a[1..], c);
      BeforeConcat(a[0], Split(a[1..], c), Split(b, c), c);
    }
  }

  lemma {:induction false} SplitOfJoin<T>(parts: seq<seq<T>>, c: T)
    requires parts != [] && forall p :: p in parts ==> c !in p
    ensures Split(Join(parts, c), c) == parts
    decreases |parts|
  {
    SplitPlain(parts[0], c);
    if |parts| > 1 {
      SplitOfJoin(parts[1..], c);
      SplitConcat(parts[0], c, Join(parts[1..], c));
    }
  }

  // ----- lines -----

  function StripLast<T(==)>(s: seq<T>, c: T): seq<T> {
    if s != [] && s[|s| - 1] == c then s[..|s| - 1] else s
  }

  /** The lines of a text: a line ends at `nl`, a `cr` before it is not part of the line, and a last
      line without an ending is a line when there is anything in it. */
  function Ended<T(==)>(parts: seq<seq<T>>, cr: T): (lines: seq<seq<T>>)
    requires parts != []
    decreases |parts|
  {
    if |parts| == 1 then if parts[0] == [] then [] else [parts[0]]
    else [StripLast(parts[0], cr)] + Ended(parts[1..], cr)
  }

  function LinesOf<T(==)>(s: seq<T>, nl: T, cr: T): seq<seq<T>> {
    Ended(Split(s, nl), cr)
  }

  function Lines(s: string): seq<string> {
    LinesOf(s, '\n', '\r')
  }

  /** A text cut just after a line ending has the lines of its two parts, in order. */
  lemma {:induction false} LinesConcat<T>(a: seq<T>, nl: T, cr: T, b: seq<T>)
    ensures LinesOf(a + [nl] + b, nl, cr) == LinesOf(a + [nl], nl, cr) + LinesOf(b, nl, cr)
  {
    SplitConcat(a, nl, b);
    SplitConcat(a, nl, []);
    assert a + [nl] + [] == a + [nl];
    EndedConcat(Split(a, nl), Split(b, nl), cr);
    EndedConcat(Split(a, nl), [[]], cr);
  }

  lemma {:induction false} EndedConcat<T>(a: seq<seq<T>>, b: seq<seq<T>>, cr: T)
    requires a != [] && b != []
    ensures Ended(a + b, cr) == Ended(a + [[]], cr) + Ended(b, cr)
    decreases |a|
  {
    assert (a + b)[1..] == a[1..] + b && (a + [[]])[1..] == a[1..] + [[]];
    if |a| > 1 {
      EndedConcat(a[1..], b, cr);
    } else {
      assert a[1..] + b == b;
      assert a[1..] + [[]] == [[]];
    }
  }

  /** A line and how it ends: in a line feed, or in both. */
  datatype EndedLine<T> = EndedLine(line: seq<T>, both: bool)
  {
    ghost predicate Reads(nl: T, cr: T)
      requires nl != cr
    {
      nl !in line && (line != [] && line[|line| - 1] == cr ==> both)
    }

    function Text(nl: T, cr: T): seq<T> {
      line + if both then [cr, nl] else [nl]
    }
  }

  function WrittenText<T>(written: seq<EndedLine<T>>, nl: T, cr: T): seq<T> {
    if written == [] then [] else written[0].Text(nl, cr) + WrittenText(written[1..], nl, cr)
  }

  function WrittenLines<T>(written: seq<EndedLine<T>>): seq<seq<T>> {
    if written == [] then [] else [written[0].line] + WrittenLines(written[1..])
  }

  lemma TextEnds<T>(w: EndedLine<T>, nl: T, cr: T)
    ensures var text := w.Text(nl, cr); text != [] && text == text[..|text| - 1] + [nl]
    ensures w.Text(nl, cr)[..|w.Text(nl, cr)| - 1] == if w.both then w.line + [cr] else w.line
  {
  }

  lemma OneLineReadsBack<T>(w: EndedLine<T>, nl: T, cr: T)
    requires nl != cr && w.Reads(nl, cr)
    ensures LinesOf(w.Text(nl, cr), nl, cr) == [w.line]
  {
    var body := w.Text(nl, cr)[..|w.Text(nl, cr)| - 1];
    TextEnds(w, nl, cr);
    SplitPlain(body, nl);
    SplitConcat(body, nl, []);
    assert body + [nl] + [] == body + [nl] && Split<T>([], nl) == [[]];
    assert [body] + [[]] == [body, []] && [body, []][1..] == [[]];
    assert w.both ==> body[..|body| - 1] == w.line;
    assert StripLast(body, cr) == w.line;
    assert Split(w.Text(nl, cr), nl) == [body, []];
    EndedTwo(body, cr);
  }

  lemma EndedTwo<T>(body: seq<T>, cr: T)
    ensures Ended([body, []], cr) == [StripLast(body, cr)]
  {
    assert [body, []][1..] == [[]];
    assert Ended([[]], cr) == [];
  }

  lemma LastLine<T>(last: seq<T>, nl: T, cr: T)
    requires nl !in last
    ensures LinesOf(last, nl, cr) == if last == [] then [] else [last]
  {
    SplitPlain(last, nl);
  }

  /** Lines written one after another, each with either ending, are the lines of the text, and so is what comes
      after the last ending when that is anything. */
  lemma {:induction false} LinesReadBack<T>(written: seq<EndedLine<T>>, last: seq<T>, nl: T, cr: T)
    requires nl != cr && nl !in last && forall w :: w in written ==> w.Reads(nl, cr)
    ensures LinesOf(WrittenText(written, nl, cr) + last, nl, cr)
            == WrittenLines(written) + if last == [] then [] else [last]
    decreases |written|
  {
    hide EndedLine.Text, LinesOf;
    if written == [] {
      assert WrittenText(written, nl, cr) + last == last;
      LastLine(last, nl, cr);
    } else {
      var first, rest := written[0], WrittenText(written[1..], nl, cr) + last;
      OneLineReadsBack(first, nl, cr);
      assert first in written && forall w :: w in written[1..] ==> w in written;
      assert WrittenText(written, nl, cr) + last == first.Text(nl, cr) + rest;
      TextEnds(first, nl, cr);
      LinesConcat(first.Text(nl, cr)[..|first.Text(nl, cr)| - 1], nl, cr, rest);
      LinesReadBack(written[1..], last, nl, cr);
      assert WrittenLines(written) == [first.line] + WrittenLines(written[1..]);
    }
  }

  // ----- trimming -----

  /** The characters Unicode counts as white space. */
  predicate IsWhitespace(c: char) {
    var n := c as int;
    || 0x9 <= n <= 0xD || n == 0x20 || n == 0x85 || n == 0xA0 || n == 0x1680
    || 0x2000 <= n <= 0x200A || n == 0x2028 || n == 0x2029 || n == 0x202F || n == 0x205F || n == 0x3000
  }

  /** One by one, as the Unicode property lists them. */
  lemma WhitespaceIs(c: char)
    ensures IsWhitespace(c)
            <==> c as int in {0x9, 0xA, 0xB, 0xC, 0xD, 0x20, 0x85, 0xA0, 0x1680, 0x2000, 0x2001, 0x2002, 0x2003, 0x2004,
                              0x2005, 0x2006, 0x2007, 0x2008, 0x2009, 0x200A, 0x2028, 0x2029, 0x202F, 0x205F, 0x3000}
  {
  }

  function DropWhile(s: string, drop: char -> bool): (t: string)
    ensures t != [] ==> !drop(t[0])
    ensures |t| <= |s|
    ensures s == [] || !drop(s[0]) ==> t == s
    decreases |s|
  {
    if s != [] && drop(s[0]) then DropWhile(s[1..], drop) else s
  }

  function DropLastWhile(s: string, drop: char -> bool): (t: string)
    ensures t <= s
    ensures t != [] ==> !drop(t[|t| - 1])
    ensures s == [] || !drop(s[|s| - 1]) ==> t == s
    decreases |s|
  {
    if s != [] && drop(s[|s| - 1]) then DropLastWhile(s[..|s| - 1], drop) else s
  }

  function TrimWhile(s: string, drop: char -> bool): string {
    DropLastWhile(DropWhile(s, drop), drop)
  }

  function TrimStart(s: string): string {
    DropWhile(s, IsWhitespace)
  }

  function Trim(s: string): string {
    TrimWhile(s, IsWhitespace)
  }

  lemma {:induction false} DropWhilePadded(a: string, s: string, drop: char -> bool)
    requires (forall c :: c in a ==> drop(c)) && (s == [] || !drop(s[0]))
    ensures DropWhile(a + s, drop) == s
    decreases |a|
  {
    if a == [] {
      assert a + s == s;
    } else {
      assert (a + s)[1..] == a[1..] + s && (a + s)[0] in a;
      DropWhilePadded(a[1..], s, drop);
    }
  }

  lemma {:induction false} DropLastWhilePadded(s: string, b: string, drop: char -> bool)
    requires (forall c :: c in b ==> drop(c)) && (s == [] || !drop(s[|s| - 1]))
    ensures DropLastWhile(s + b, drop) == s
    decreases |b|
  {
    if b == [] {
      assert s + b == s;
    } else {
      var n := |b| - 1;
      assert (s + b)[..|s + b| - 1] == s + b[..n] && (s + b)[|s + b| - 1] == b[n] && b[n] in b;
      DropLastWhilePadded(s, b[..n], drop);
    }
  }

  /** Trimming takes off whatever is around, and nothing else. */
  lemma TrimPadded(a: string, s: string, b: string, drop: char -> bool)
    requires forall c :: c in a + b ==> drop(c)
    requires s != [] ==> !drop(s[0]) && !drop(s[|s| - 1])
    ensures TrimWhile(a + s + b, drop) == s
  {
    assert forall c :: c in a || c in b ==> c in a + b;
    if s == [] {
      assert a + s + b == a + b + [];
      DropWhilePadded(a + b, [], drop);
    } else {
      assert a + s + b == a + (s + b);
      DropWhilePadded(a, s + b, drop);
      DropLastWhilePadded(s, b, drop);
    }
  }

  function StripPrefix(s: string, prefix: string): Option<string> {
    if prefix <= s then Some(s[|prefix|..]) else None
  }

  /** What comes before the first `c`, and what comes after it. */
  function SplitOnce(s: string, c: char): Option<(string, string)>
    decreases |s|
  {
    if s == [] then None
    else if s[0] == c then Some(([], s[1..]))
    else match SplitOnce(s[1..], c)
      case None => None
      case Some((before, after)) => Some(([s[0]] + before, after))
  }

  lemma {:induction false} SplitOnceAt(before: string, c: char, after: string)
    requires c !in before
    ensures SplitOnce(before + [c] + after, c) == Some((before, after))
    decreases |before|
  {
    var s := before + [c] + after;
    if before == [] {
      assert s[1..] == after;
    } else {
      assert s[1..] == before[1..] + [c] + after;
      SplitOnceAt(before[1..], c, after);
      assert [before[0]] + before[1..] == before;
    }
  }

  lemma {:induction false} SplitOnceNone(s: string, c: char)
    ensures SplitOnce(s, c).None? <==> c !in s
    ensures SplitOnce(s, c).Some? ==>
              var (before, after) := SplitOnce(s, c).value; s == before + [c] + after && c !in before
    decreases |s|
  {
    if s != [] {
      SplitOnceNone(s[1..], c);
    }
  }
}
