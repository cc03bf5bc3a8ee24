/** What the prompt checker accepts, the composer can compose, and composes from the flags it found. */
module PromptAgreement {
  import opened Prelude
  import opened Text
  import opened Paths
  import opened Prompt

  /** The flags cover what a walk found. */
  predicate Declares(flags: Flags, found: set<string>) {
    found <= flags.Keys
  }

  // ----- acceptance -----

  lemma {:induction false} AcceptedFileExpands(
    source: Source, path: Clean, flags: Flags, stack: seq<Clean>, before: Walked)
    requires Nested(stack) && path != []
    requires WalkFile(source, path, stack, before).Ok?
    requires Declares(flags, WalkFile(source, path, stack, before).value.found)
    ensures var r := ExpandFile(source, path, flags, stack);
            r.Ok? && r.value.files <= before.budget - WalkFile(source, path, stack, before).value.budget
    decreases MAX_INCLUDE_DEPTH - |stack|, 0
  {
    var lines := Lines(source(path).value);
    AcceptedLinesExpand(source, path, lines, 0, flags, stack + [path], before.(budget := before.budget - 1));
  }

  lemma {:induction false} AcceptedLinesExpand(
    source: Source, path: Clean, lines: seq<string>, at: nat, flags: Flags, stack: seq<Clean>, before: Walked)
    requires Nested(stack) && path != [] && at <= |lines|
    requires WalkLines(source, path, lines, at, stack, before).Ok?
    requires Declares(flags, WalkLines(source, path, lines, at, stack, before).value.found)
    ensures var r := ExpandLines(source, path, lines, at, flags, stack);
            r.Ok? && r.value.files <= before.budget - WalkLines(source, path, lines, at, stack, before).value.budget
    decreases MAX_INCLUDE_DEPTH - |stack|, 1 + |lines| - at
  {
    if at < |lines| {
      var after := WalkLine(source, path, lines[at], at + 1, stack, before).value;
      AcceptedLinesExpand(source, path, lines, at + 1, flags, stack, after);
      AcceptedLineExpands(source, path, lines[at], at + 1, flags, stack, before);
    }
  }

  lemma {:induction false} AcceptedLineExpands(
    source: Source, path: Clean, line: string, number: nat, flags: Flags, stack: seq<Clean>, before: Walked)
    requires Nested(stack) && path != []
    requires WalkLine(source, path, line, number, stack, before).Ok?
    requires Declares(flags, WalkLine(source, path, line, number, stack, before).value.found)
    ensures var r := ExpandLine(source, path, line, number, flags, stack);
            r.Ok? && r.value.files <= before.budget - WalkLine(source, path, line, number, stack, before).value.budget
    decreases MAX_INCLUDE_DEPTH - |stack|, 1
  {
    var parsed := Parse(line, path, number);
    if parsed.value.Some? {
      var directive := parsed.value.value;
      var noted := before.(found := before.found + Mentioned(directive));
      var target := Target(path, directive).value;
      AcceptedFileExpands(source, target, flags, stack, noted);
    }
  }

  /** What the checker accepts, the composer composes: for every file source and every flag set that
      declares the names found, reading at most the files the checker counted. */
  lemma AcceptedPromptsCompose(source: Source, entry: string, flags: Flags)
    requires ReferencedFlags(source, entry).Ok? && Declares(flags, ReferencedFlags(source, entry).value)
    ensures ResolvePrompt(source, entry, flags).Ok?
    ensures ExpandFile(source, Confine(Components(entry)).value, flags, []).value.files <= MAX_INCLUDE_EXPANSIONS
  {
    AcceptedFileExpands(source, Confine(Components(entry)).value, flags, [], Walked(MAX_INCLUDE_EXPANSIONS, {}));
  }

  // ----- the text depends on nothing else -----

  /** Two flag sets that both declare `found` and give it the same values. */
  predicate Agree(a: Flags, b: Flags, found: set<string>) {
    Declares(a, found) && Declares(b, found) && forall f :: f in found ==> a[f] == b[f]
  }

  lemma WalkLineFirst(source: Source, path: Clean, lines: seq<string>, at: nat, stack: seq<Clean>, before: Walked)
    returns (after: Walked)
    requires Nested(stack) && path != [] && at < |lines|
    requires WalkLines(source, path, lines, at, stack, before).Ok?
    ensures WalkLine(source, path, lines[at], at + 1, stack, before) == Ok(after)
    ensures WalkLines(source, path, lines, at, stack, before) == WalkLines(source, path, lines, at + 1, stack, after)
    ensures after.found <= WalkLines(source, path, lines, at, stack, before).value.found
  {
    after := WalkLine(source, path, lines[at], at + 1, stack, before).value;
  }

  function Append(first: Result<Composed, PromptError>, rest: Result<Composed, PromptError>)
    : Result<Composed, PromptError>
  {
    if first.Err? then first else if rest.Err? then rest
    else Ok(Composed(first.value.text + rest.value.text, first.value.files + rest.value.files))
  }

  lemma ExpandLineFirst(source: Source, path: Clean, lines: seq<string>, at: nat, flags: Flags, stack: seq<Clean>)
    requires Nested(stack) && path != [] && at < |lines|
    ensures ExpandLines(source, path, lines, at, flags, stack)
            == Append(ExpandLine(source, path, lines[at], at + 1, flags, stack),
                      ExpandLines(source, path, lines, at + 1, flags, stack))
  {
  }

  lemma AgreeOnLess(a: Flags, b: Flags, found: set<string>, less: set<string>)
    requires Agree(a, b, found) && less <= found
    ensures Agree(a, b, less)
  {
  }

  lemma {:induction false} FileDependsOnFound(
    source: Source, path: Clean, a: Flags, b: Flags, stack: seq<Clean>, before: Walked)
    requires Nested(stack) && path != []
    requires WalkFile(source, path, stack, before).Ok?
    requires Agree(a, b, WalkFile(source, path, stack, before).value.found)
    ensures ExpandFile(source, path, a, stack) == ExpandFile(source, path, b, stack)
    decreases MAX_INCLUDE_DEPTH - |stack|, 0
  {
    hide Lines, WalkLines, ExpandLines;
    var lines := Lines(source(path).value);
    LinesDependOnFound(source, path, lines, 0, a, b, stack + [path], before.(budget := before.budget - 1));
  }

  lemma {:induction false} LinesDependOnFound(
    source: Source, path: Clean, lines: seq<string>, at: nat, a: Flags, b: Flags, stack: seq<Clean>, before: Walked)
    requires Nested(stack) && path != [] && at <= |lines|
    requires WalkLines(source, path, lines, at, stack, before).Ok?
    requires Agree(a, b, WalkLines(source, path, lines, at, stack, before).value.found)
    ensures ExpandLines(source, path, lines, at, a, stack) == ExpandLines(source, path, lines, at, b, stack)
    decreases MAX_INCLUDE_DEPTH - |stack|, 1 + |lines| - at
  {
    if at < |lines| {
      var after := WalkLineFirst(source, path, lines, at, stack, before);
      AgreeOnLess(a, b, WalkLines(source, path, lines, at, stack, before).value.found, after.found);
      LinesDependOnFound(source, path, lines, at + 1, a, b, stack, after);
      LineDependsOnFound(source, path, lines[at], at + 1, a, b, stack, before);
      ExpandLineFirst(source, path, lines, at, a, stack);
      ExpandLineFirst(source, path, lines, at, b, stack);
    }
  }

  lemma {:induction false} LineDependsOnFound(
    source: Source, path: Clean, line: string, number: nat, a: Flags, b: Flags, stack: seq<Clean>, before: Walked)
    requires Nested(stack) && path != []
    requires WalkLine(source, path, line, number, stack, before).Ok?
    requires Agree(a, b, WalkLine(source, path, line, number, stack, before).value.found)
    ensures ExpandLine(source, path, line, number, a, stack) == ExpandLine(source, path, line, number, b, stack)
    decreases MAX_INCLUDE_DEPTH - |stack|, 1
  {
    var parsed := Parse(line, path, number);
    if parsed.value.Some? {
      var directive := parsed.value.value;
      var noted := before.(found := before.found + Mentioned(directive));
      FileDependsOnFound(source, Target(path, directive).value, a, b, stack, noted);
      assert directive.condition.Some? ==> directive.condition.value.flag in noted.found;
    }
  }

  /** Composed text depends only on the flags the checker found: no other flag can change a word. */
  lemma TextDependsOnFoundFlags(source: Source, entry: string, a: Flags, b: Flags)
    requires ReferencedFlags(source, entry).Ok? && Agree(a, b, ReferencedFlags(source, entry).value)
    ensures ResolvePrompt(source, entry, a) == ResolvePrompt(source, entry, b)
  {
    FileDependsOnFound(source, Confine(Components(entry)).value, a, b, [], Walked(MAX_INCLUDE_EXPANSIONS, {}));
  }

  // ----- the flags a chain carries -----

  /** The declared flags, with the recorded value of each that has one. */
  function FlagsCarrying(declared: Flags, recorded: Flags): Flags {
    map name | name in declared :: if name in recorded then recorded[name] else declared[name]
  }

  /** The same for one run, refusing an override nobody declared. */
  function FlagsForRun(declared: Flags, overrides: Flags): Option<Flags> {
    if exists name :: name in overrides && name !in declared then None
    else Some(FlagsCarrying(declared, overrides))
  }

  /** A pipeline that declares what the checker found always composes, whatever was recorded with the
      work, and what was recorded for a flag it does not declare changes nothing. */
  lemma CarriedFlagsCompose(source: Source, entry: string, declared: Flags, recorded: Flags)
    requires ReferencedFlags(source, entry).Ok? && Declares(declared, ReferencedFlags(source, entry).value)
    ensures ResolvePrompt(source, entry, FlagsCarrying(declared, recorded)).Ok?
    ensures ResolvePrompt(source, entry, FlagsCarrying(declared, recorded))
            == ResolvePrompt(source, entry, FlagsCarrying(declared, recorded - (recorded.Keys - declared.Keys)))
    ensures FlagsForRun(declared, recorded).Some? <==> recorded.Keys <= declared.Keys
    ensures FlagsForRun(declared, recorded).Some? ==>
              FlagsForRun(declared, recorded).value == FlagsCarrying(declared, recorded)
    ensures FlagsCarrying(declared, recorded).Keys == declared.Keys
    ensures forall name :: name in declared ==>
              FlagsCarrying(declared, recorded)[name] == if name in recorded then recorded[name] else declared[name]
    ensures FlagsForRun(declared, recorded).Some? ==>
              ResolvePrompt(source, entry, FlagsForRun(declared, recorded).value).Ok?
  {
    AcceptedPromptsCompose(source, entry, FlagsCarrying(declared, recorded));
    assert FlagsCarrying(declared, recorded)
        == FlagsCarrying(declared, recorded - (recorded.Keys - declared.Keys));
  }

  // ----- rejection -----

  /** No line of any file tests a flag. */
  ghost predicate Unconditional(source: Source) {
    forall path: Clean :: source(path).Ok? ==> PlainLines(Lines(source(path).value))
  }

  ghost predicate PlainLines(lines: seq<string>) {
    forall k :: 0 <= k < |lines| ==> PlainLine(lines[k])
  }

  ghost predicate PlainLine(line: string) {
    forall path: Clean, number: nat ::
      var parsed := Parse(line, path, number);
      parsed.Ok? && parsed.value.Some? ==> parsed.value.value.condition.None?
  }

  /** Whether composing ends as checking with `budget` files left did: composed, from as many files as were counted,
      when accepted, and refused for the same reason when rejected; what was rejected for the number of files may
      compose, but only from more. */
  predicate SameEnd(budget: nat, walked: Result<Walked, PromptError>, composed: Result<Composed, PromptError>) {
    match walked
    case Ok(after) => composed.Ok? && composed.value.files + after.budget == budget
    case Err(why) => if why.TooWide? then composed.Ok? ==> composed.value.files > budget else composed == Err(why)
  }

  lemma {:induction false} PlainFileEndsTheSame(
    source: Source, path: Clean, flags: Flags, stack: seq<Clean>, before: Walked)
    requires Nested(stack) && path != [] && Unconditional(source)
    ensures SameEnd(before.budget, WalkFile(source, path, stack, before), ExpandFile(source, path, flags, stack))
    decreases MAX_INCLUDE_DEPTH - |stack|, 0
  {
    if |stack| < MAX_INCLUDE_DEPTH && path !in stack && before.budget > 0 && source(path).Ok? {
      var lines := Lines(source(path).value);
      PlainLinesEndTheSame(source, path, lines, 0, flags, stack + [path], before.(budget := before.budget - 1));
    }
  }

  lemma {:induction false} PlainLinesEndTheSame(
    source: Source, path: Clean, lines: seq<string>, at: nat, flags: Flags, stack: seq<Clean>, before: Walked)
    requires Nested(stack) && path != [] && at <= |lines| && Unconditional(source) && PlainLines(lines)
    ensures SameEnd(before.budget, WalkLines(source, path, lines, at, stack, before),
                    ExpandLines(source, path, lines, at, flags, stack))
    decreases MAX_INCLUDE_DEPTH - |stack|, 1 + |lines| - at
  {
    hide WalkLine, ExpandLine;
    if at < |lines| {
      PlainLineEndsTheSame(source, path, lines[at], at + 1, flags, stack, before);
      var one := WalkLine(source, path, lines[at], at + 1, stack, before);
      if one.Ok? {
        PlainLinesEndTheSame(source, path, lines, at + 1, flags, stack, one.value);
      }
    }
  }

  lemma {:induction false} PlainLineEndsTheSame(
    source: Source, path: Clean, line: string, number: nat, flags: Flags, stack: seq<Clean>, before: Walked)
    requires Nested(stack) && path != [] && Unconditional(source) && PlainLine(line)
    ensures SameEnd(before.budget, WalkLine(source, path, line, number, stack, before),
                    ExpandLine(source, path, line, number, flags, stack))
    decreases MAX_INCLUDE_DEPTH - |stack|, 1
  {
    hide WalkFile, ExpandFile, Unconditional;
    var parsed := Parse(line, path, number);
    if parsed.Ok? && parsed.value.Some? && Target(path, parsed.value.value).Ok? {
      var directive := parsed.value.value;
      assert directive.condition.None? && before.found + Mentioned(directive) == before.found;
      PlainFileEndsTheSame(source, Target(path, directive).value, flags, stack, before);
    }
  }

  /** Without conditions the checker and the composer agree both ways: what is rejected would have
      failed, and for the same reason, unless only the count of files was at fault, and then there are more than
      may be; what is accepted is composed from no more. */
  lemma UnconditionalPromptsAgree(source: Source, entry: string, flags: Flags)
    requires Unconditional(source)
    ensures match ReferencedFlags(source, entry)
            case Ok(_) =>
              && ResolvePrompt(source, entry, flags).Ok?
              && ExpandFile(source, Confine(Components(entry)).value, flags, []).value.files <= MAX_INCLUDE_EXPANSIONS
            case Err(why) =>
              if why.TooWide? then
                ResolvePrompt(source, entry, flags).Ok? ==>
                  ExpandFile(source, Confine(Components(entry)).value, flags, []).value.files > MAX_INCLUDE_EXPANSIONS
              else ResolvePrompt(source, entry, flags) == Err(why)
  {
    if Confine(Components(entry)).Some? {
      PlainFileEndsTheSame(source, Confine(Components(entry)).value, flags, [], Walked(MAX_INCLUDE_EXPANSIONS, {}));
    }
  }

  // ----- directives, written and read back -----

  predicate Bare(c: char) {
    !IsWhitespace(c) && c != '"'
  }

  /** A directive as it may be written on a line. */
  function Written(directive: Directive): string {
    "@include" + WrittenRest(directive)
  }

  function WrittenRest(directive: Directive): string {
    match directive.condition
    case None => " " + directive.path
    case Some(c) => "(" + Inside(c) + ")" + " " + directive.path
  }

  function Inside(c: Condition): string {
    (if c.negated then "!" else "") + c.flag
  }

  lemma NamesAreBare(name: string)
    requires IsName(name)
    ensures forall c :: c in name ==> !IsWhitespace(c) && c != ')' && c != '!'
    ensures Trim(name) == name
  {
    forall c | c in name ensures !IsWhitespace(c) && c != ')' && c != '!' {
      assert name == [name[0]] + name[1..];
    }
    assert name[|name| - 1] in name;
  }

  predicate Blank(s: string) {
    forall c :: c in s ==> IsWhitespace(c)
  }

  /** What may stand around a directive and inside it: white space before the line, in and after the condition,
      around the path, and one pair of quotes or none. */
  datatype Spelling = Spelling(before: string, open: string, not: string, close: string, gap: string, quotes: bool,
                               inside: string, outside: string, after: string)
  {
    predicate Allows(directive: Directive) {
      && Blank(before) && Blank(open) && Blank(not) && Blank(close) && Blank(gap) && Blank(inside) && Blank(outside)
      && Blank(after) && (directive.condition.None? ==> gap != "")
      && (!quotes ==> inside == outside == "")
    }

    function Condition(c: Condition): string {
      open + (if c.negated then "!" + not else "") + c.flag + close
    }

    function Path(path: string): string {
      gap + (if quotes then "\"" + inside + path + outside + "\"" else path) + after
    }

    function Rest(directive: Directive): string {
      match directive.condition
      case None => Path(directive.path)
      case Some(c) => "(" + Condition(c) + ")" + Path(directive.path)
    }

    function Line(directive: Directive): string {
      before + ("@include" + Rest(directive))
    }
  }

  lemma SpelledPath(how: Spelling, directive: Directive)
    requires how.Allows(directive)
    requires directive.path != [] && Bare(directive.path[0]) && Bare(directive.path[|directive.path| - 1])
    ensures ParseTarget(directive.condition, how.Path(directive.path)) == Some(directive)
  {
    var path := directive.path;
    var core := how.inside + path + how.outside;
    var said := if how.quotes then "\"" + core + "\"" else path;
    assert how.Path(path) == how.gap + said + how.after by {
      assert "\"" + how.inside + path + how.outside + "\"" == "\"" + core + "\"";
    }
    TrimPadded(how.gap, said, how.after, IsWhitespace);
    UnquotedPath(how, directive, core);
  }

  lemma UnquotedPath(how: Spelling, directive: Directive, core: string)
    requires how.Allows(directive) && core == how.inside + directive.path + how.outside
    requires directive.path != [] && Bare(directive.path[0]) && Bare(directive.path[|directive.path| - 1])
    ensures Trim(TrimWhile(if how.quotes then "\"" + core + "\"" else directive.path, c => c == '"')) == directive.path
  {
    var path := directive.path;
    var quote := (c: char) => c == '"';
    if how.quotes {
      EndsOf(how.inside, path, how.outside);
      assert core[0] != '"' && core[|core| - 1] != '"';
      TrimPadded("\"", core, "\"", quote);
      TrimPadded(how.inside, path, how.outside, IsWhitespace);
    } else {
      assert TrimWhile(path, quote) == path;
      assert Trim(path) == path;
    }
  }

  lemma EndsOf(a: string, s: string, b: string)
    requires s != [] && Blank(a) && Blank(b)
    ensures var t := a + s + b;
            t != [] && (t[0] == s[0] || IsWhitespace(t[0])) && (t[|t| - 1] == s[|s| - 1] || IsWhitespace(t[|t| - 1]))
  {
    var t := a + s + b;
    assert a != [] ==> t[0] in a;
    assert b != [] ==> t[|t| - 1] in b;
  }

  lemma SpelledCondition(how: Spelling, directive: Directive, c: Condition)
    requires how.Allows(directive) && IsName(c.flag)
    ensures ParseCondition(how.Condition(c)) == Some(c)
  {
    hide TrimWhile, IsWhitespace, IsName;
    var said := (if c.negated then "!" + how.not else "") + c.flag;
    NameEnds(c.flag);
    assert how.Condition(c) == how.open + said + how.close;
    assert said[0] == (if c.negated then '!' else c.flag[0]) && said[|said| - 1] == c.flag[|c.flag| - 1];
    TrimPadded(how.open, said, how.close, IsWhitespace);
    SaidReadsBack(how, directive, c, said);
  }

  lemma NameEnds(name: string)
    requires IsName(name)
    ensures name != [] && !IsWhitespace(name[0]) && !IsWhitespace(name[|name| - 1]) && name[0] != '!'
    ensures Trim(name) == name && !IsWhitespace('!')
  {
    NamesAreBare(name);
    assert name[0] in name && name[|name| - 1] in name;
  }

  lemma ConditionHolds(how: Spelling, directive: Directive, c: Condition)
    requires how.Allows(directive) && IsName(c.flag)
    ensures ')' !in how.Condition(c)
  {
    NamesAreBare(c.flag);
    forall d | d in how.Condition(c) ensures d != ')' {
      assert d in how.open || d == '!' || d in how.not || d in c.flag || d in how.close;
    }
  }

  lemma SaidReadsBack(how: Spelling, directive: Directive, c: Condition, said: string)
    requires how.Allows(directive) && IsName(c.flag) && Trim(c.flag) == c.flag && c.flag[0] != '!'
    requires !IsWhitespace(c.flag[0]) && !IsWhitespace(c.flag[|c.flag| - 1])
    requires said == (if c.negated then "!" + how.not else "") + c.flag
    ensures match StripPrefix(said, "!")
            case Some(rest) => c.negated && Trim(rest) == c.flag
            case None => !c.negated && said == c.flag
  {
    hide TrimWhile, IsName;
    if c.negated {
      assert said[1..] == how.not + c.flag + [];
      TrimPadded(how.not, c.flag, [], IsWhitespace);
    } else {
      assert said == c.flag;
    }
  }

  lemma SpelledRest(how: Spelling, directive: Directive)
    requires how.Allows(directive) && ParseTarget(directive.condition, how.Path(directive.path)) == Some(directive)
    requires directive.condition.Some? ==> IsName(directive.condition.value.flag)
    ensures ParseRest(how.Rest(directive)) == Some(directive)
  {
    hide ParseTarget, ParseCondition, Spelling.Condition;
    var path := how.Path(directive.path);
    match directive.condition
    case None =>
      assert path[0] == how.gap[0] && how.gap[0] in how.gap;
      assert StripPrefix(path, "(") == None;
    case Some(c) =>
      SpelledCondition(how, directive, c);
      ConditionHolds(how, directive, c);
      var inside := how.Condition(c);
      SplitOnceAt(inside, ')', path);
      assert how.Rest(directive) == ['('] + (inside + [')'] + path);
      assert StripPrefix(how.Rest(directive), "(") == Some(inside + [')'] + path);
  }

  /** However a directive is spelled, it is read as itself. */
  lemma SpelledReadsBack(how: Spelling, directive: Directive, file: Clean, number: nat)
    requires how.Allows(directive)
    requires directive.path != [] && Bare(directive.path[0]) && Bare(directive.path[|directive.path| - 1])
    requires directive.condition.Some? ==> IsName(directive.condition.value.flag)
    ensures Parse(how.Line(directive), file, number) == Ok(Some(directive))
  {
    hide ParseTarget, ParseRest, Spelling.Condition, TrimWhile;
    var bare := how.(after := "");
    SpelledPath(bare, directive);
    SpelledRest(bare, directive);
    RestEnds(how, directive);
    var said := "@include" + bare.Rest(directive);
    assert said[0] == '@' && said[|said| - 1] == bare.Rest(directive)[|bare.Rest(directive)| - 1];
    TrimPadded(how.before, said, how.after, IsWhitespace);
    assert StripPrefix(said, "@include") == Some(bare.Rest(directive));
  }

  lemma RestEnds(how: Spelling, directive: Directive)
    requires directive.path != [] && Bare(directive.path[0]) && Bare(directive.path[|directive.path| - 1])
    ensures var rest := how.(after := "").Rest(directive);
            && rest != [] && !IsWhitespace(rest[|rest| - 1])
            && how.Line(directive) == how.before + ("@include" + rest) + how.after
  {
    var bare := how.(after := "");
    var path := bare.Path(directive.path);
    assert path[|path| - 1] == if how.quotes then '"' else directive.path[|directive.path| - 1];
    assert how.Path(directive.path) == path + how.after;
    assert bare.Rest(directive)[|bare.Rest(directive)| - 1] == path[|path| - 1];
    assert how.Rest(directive) == bare.Rest(directive) + how.after by {
      match directive.condition
      case None =>
      case Some(c) =>
        assert bare.Condition(c) == how.Condition(c);
        assert "(" + how.Condition(c) + ")" + (path + how.after) == "(" + how.Condition(c) + ")" + path + how.after;
    }
  }

  /** Names hold ASCII letters, digits and underscores, to both ends of each range, and begin with no digit. */
  lemma NamesForExample()
    ensures IsName("azAZ_09") && IsName("_") && !IsName("") && !IsName("0a") && !IsName("9a")
    ensures forall c :: c in "`{@[/:-^." ==> !IsName([c]) && !IsName(['a', c])
  {
    assert "azAZ_09"[1..] == "zAZ_09";
    forall c | c in "`{@[/:-^." ensures !IsName([c]) && !IsName(['a', c]) {
      assert ['a', c][1..] == [c];
      assert c in [c];
    }
  }

  /** A line is text exactly when it does not start with the keyword. One that does, but is not a directive, is
      refused rather than taken as text: so it is when what follows the keyword is neither white space nor a condition,
      and when the condition does not end. */
  lemma NotQuiteADirective(line: string, file: Clean, number: nat)
    ensures Parse(line, file, number) == Ok(None) <==> !("@include" <= Trim(line))
    ensures Parse(line, file, number).Err? ==>
              Parse(line, file, number).error == MalformedDirective(file, number, Trim(line))
    ensures "@include" <= Trim(line) ==>
              var rest := Trim(line)[8..];
              && (rest == "" || !(rest[0] == '(' || IsWhitespace(rest[0])) ==> Parse(line, file, number).Err?)
              && (rest != "" && rest[0] == '(' && ')' !in rest ==> Parse(line, file, number).Err?)
  {
    hide ParseTarget, ParseCondition;
    var trimmed := Trim(line);
    if "@include" <= trimmed && trimmed[8..] != "" {
      var rest := trimmed[8..];
      assert forall c :: c in rest[1..] ==> c in rest;
      SplitOnceNone(rest[1..], ')');
    }
  }

  lemma TargetIsTrimmed()
    ensures forall condition, rest :: ParseTarget(condition, rest).Some? ==>
              var path := ParseTarget(condition, rest).value.path;
              path != [] && !IsWhitespace(path[0]) && !IsWhitespace(path[|path| - 1])
    ensures forall condition, rest :: ParseTarget(condition, rest).Some? ==>
              ParseTarget(condition, rest).value.condition == condition
  {
  }

  lemma WhatIsRead(rest: string)
    ensures match ParseRest(rest)
            case Some(directive) =>
              && directive.path != [] && !IsWhitespace(directive.path[0])
              && !IsWhitespace(directive.path[|directive.path| - 1])
              && (match directive.condition
                  case Some(c) =>
                    IsName(c.flag)
                    && exists inside, after :: rest == "(" + inside + ")" + after && ParseCondition(inside) == Some(c)
                  case None => rest[0] != '(')
            case None => true
  {
    hide IsName, TrimWhile, ParseTarget;
    TargetIsTrimmed();
    if ParseRest(rest).Some? && rest[0] == '(' {
      SplitOnceNone(rest[1..], ')');
      var (inside, after) := SplitOnce(rest[1..], ')').value;
      assert rest == "(" + inside + ")" + after;
    }
  }

  /** `Parse` undoes `Written`. */
  lemma DirectiveReadsBack(directive: Directive, file: Clean, number: nat)
    requires directive.path != [] && Bare(directive.path[0]) && Bare(directive.path[|directive.path| - 1])
    requires directive.condition.Some? ==> IsName(directive.condition.value.flag)
    ensures Parse(Written(directive), file, number) == Ok(Some(directive))
  {
    var how := Spelling("", "", "", "", " ", false, "", "", "");
    SpelledReadsBack(how, directive, file, number);
    WrittenIsSpelled(how, directive);
  }

  lemma WrittenIsSpelled(how: Spelling, directive: Directive)
    requires how == Spelling("", "", "", "", " ", false, "", "", "")
    ensures how.Line(directive) == Written(directive)
  {
    assert how.Path(directive.path) == " " + directive.path;
    match directive.condition
    case None =>
    case Some(c) => assert how.Condition(c) == Inside(c);
  }
}
