/** Dynamic prompt composition: bounded include expansion, and the checker that must agree with it. */
module Prompt {
  import opened Prelude
  import opened Text
  import opened Paths

  const MAX_INCLUDE_DEPTH: nat := 8
  const MAX_INCLUDE_EXPANSIONS: nat := 1000

  datatype PromptError =
    | Missing(path: Clean)
    | Unreadable(path: Clean, reason: string)
    | Escapes(raw: seq<Component>)
    | MalformedDirective(path: Clean, line: nat, text: string)
    | UnknownFlag(flag: string, path: Clean, line: nat)
    | Cycle(path: Clean)
    | TooDeep(path: Clean, limit: nat)
    | TooWide(path: Clean, limit: nat)

  /** Any way of reading a file by its canonical path. */
  type Source = Clean -> Result<string, PromptError>

  type Flags = map<string, bool>

  // ----- directives -----

  /** What a directive tests: a flag, or that it is unset. */
  datatype Condition = Condition(flag: string, negated: bool)

  datatype Directive = Directive(condition: Option<Condition>, path: string)

  predicate IsLetter(c: char) {
    'a' <= c <= 'z' || 'A' <= c <= 'Z' || c == '_'
  }

  predicate IsName(name: string) {
    && name != [] && IsLetter(name[0])
    && forall c :: c in name[1..] ==> IsLetter(c) || '0' <= c <= '9'
  }

  function ParseCondition(inside: string): Option<Condition> {
    var trimmed := Trim(inside);
    var (negated, name) := match StripPrefix(trimmed, "!")
      case Some(rest) => (true, Trim(rest))
      case None => (false, trimmed);
    if IsName(name) then Some(Condition(name, negated)) else None
  }

  /** What follows a directive's condition: the path, quoted or not. */
  function ParseTarget(condition: Option<Condition>, remainder: string): Option<Directive> {
    var target := Trim(TrimWhile(Trim(remainder), c => c == '"'));
    if target == [] then None else Some(Directive(condition, target))
  }

  function ParseRest(rest: string): Option<Directive> {
    match StripPrefix(rest, "(")
    case Some(after) =>
      (match SplitOnce(after, ')')
       case None => None
       case Some((inside, remainder)) =>
         match ParseCondition(inside)
         case None => None
         case Some(condition) => ParseTarget(Some(condition), remainder))
    case None =>
      if rest != [] && IsWhitespace(rest[0]) then ParseTarget(None, rest) else None
  }

  /** Parses one line: ordinary text, a directive, or something too close to a directive to be prose. */
  function Parse(line: string, path: Clean, number: nat): Result<Option<Directive>, PromptError> {
    var trimmed := Trim(line);
    match StripPrefix(trimmed, "@include")
    case None => Ok(None)
    case Some(rest) =>
      match ParseRest(rest)
      case None => Err(MalformedDirective(path, number, trimmed))
      case Some(directive) => Ok(Some(directive))
  }

  // ----- nesting -----

  /** The files being expanded, outermost first: never one twice, and never more than the limit. */
  predicate Nested(stack: seq<Clean>) {
    && |stack| <= MAX_INCLUDE_DEPTH
    && (forall i, j :: 0 <= i < j < |stack| ==> stack[i] != stack[j])
    && (forall f :: f in stack ==> f != [])
  }

  /** Where an include in the file at `path` leads, or why it may not. */
  function Target(path: Clean, directive: Directive): Result<Clean, PromptError> {
    var raw := ResolveRelative(path, Components(directive.path));
    match Confine(raw) case Some(target) => Ok(target) case None => Err(Escapes(raw))
  }

  // ----- the checker -----

  /** What a walk leaves: how many more files may be expanded, and every flag mentioned so far. */
  datatype Walked = Walked(budget: nat, found: set<string>)

  function WalkFile(source: Source, path: Clean, stack: seq<Clean>, before: Walked): (r: Result<Walked, PromptError>)
    requires Nested(stack) && path != []
    ensures r.Ok? ==> before.found <= r.value.found && r.value.budget < before.budget
    decreases MAX_INCLUDE_DEPTH - |stack|, 0
  {
    if |stack| >= MAX_INCLUDE_DEPTH then Err(TooDeep(path, MAX_INCLUDE_DEPTH))
    else if path in stack then Err(Cycle(path))
    else if before.budget == 0 then Err(TooWide(path, MAX_INCLUDE_EXPANSIONS))
    else match source(path)
      case Err(why) => Err(why)
      case Ok(text) =>
        WalkLines(source, path, Lines(text), 0, stack + [path], before.(budget := before.budget - 1))
  }

  function WalkLines(source: Source, path: Clean, lines: seq<string>, at: nat, stack: seq<Clean>, before: Walked)
    : (r: Result<Walked, PromptError>)
    requires Nested(stack) && path != [] && at <= |lines|
    ensures r.Ok? ==> before.found <= r.value.found && r.value.budget <= before.budget
    decreases MAX_INCLUDE_DEPTH - |stack|, 1 + |lines| - at
  {
    if at == |lines| then Ok(before)
    else match WalkLine(source, path, lines[at], at + 1, stack, before)
      case Err(why) => Err(why)
      case Ok(after) => WalkLines(source, path, lines, at + 1, stack, after)
  }

  function WalkLine(source: Source, path: Clean, line: string, number: nat, stack: seq<Clean>, before: Walked)
    : (r: Result<Walked, PromptError>)
    requires Nested(stack) && path != []
    ensures r.Ok? ==> before.found <= r.value.found && r.value.budget <= before.budget
    decreases MAX_INCLUDE_DEPTH - |stack|, 1
  {
    match Parse(line, path, number)
    case Err(why) => Err(why)
    case Ok(None) => Ok(before)
    case Ok(Some(directive)) =>
      var noted := before.(found := before.found + Mentioned(directive));
      match Target(path, directive)
      case Err(why) => Err(why)
      case Ok(target) => WalkFile(source, target, stack, noted)
  }

  function Mentioned(directive: Directive): set<string> {
    match directive.condition case None => {} case Some(condition) => {condition.flag}
  }

  /** Every flag `entry` and its includes mention, or why the prompt cannot be checked. */
  function ReferencedFlags(source: Source, entry: string): Result<set<string>, PromptError> {
    match Confine(Components(entry))
    case None => Err(Escapes(Components(entry)))
    case Some(path) =>
      match WalkFile(source, path, [], Walked(MAX_INCLUDE_EXPANSIONS, {}))
      case Err(why) => Err(why)
      case Ok(walked) => Ok(walked.found)
  }

  // ----- the composer -----

  /** Text composed, and how many files were read for it. */
  datatype Composed = Composed(text: string, files: nat)

  function ExpandFile(source: Source, path: Clean, flags: Flags, stack: seq<Clean>): Result<Composed, PromptError>
    requires Nested(stack) && path != []
    decreases MAX_INCLUDE_DEPTH - |stack|, 0
  {
    if |stack| >= MAX_INCLUDE_DEPTH then Err(TooDeep(path, MAX_INCLUDE_DEPTH))
    else if path in stack then Err(Cycle(path))
    else match source(path)
      case Err(why) => Err(why)
      case Ok(text) =>
        match ExpandLines(source, path, Lines(text), 0, flags, stack + [path])
        case Err(why) => Err(why)
        case Ok(composed) => Ok(composed.(files := composed.files + 1))
  }

  function ExpandLines(source: Source, path: Clean, lines: seq<string>, at: nat, flags: Flags, stack: seq<Clean>)
    : Result<Composed, PromptError>
    requires Nested(stack) && path != [] && at <= |lines|
    decreases MAX_INCLUDE_DEPTH - |stack|, 1 + |lines| - at
  {
    if at == |lines| then Ok(Composed("", 0))
    else match ExpandLine(source, path, lines[at], at + 1, flags, stack)
      case Err(why) => Err(why)
      case Ok(first) =>
        match ExpandLines(source, path, lines, at + 1, flags, stack)
        case Err(why) => Err(why)
        case Ok(rest) => Ok(Composed(first.text + rest.text, first.files + rest.files))
  }

  /** Whether a directive's include is followed, or the flag nobody declared. */
  function Followed(directive: Directive, flags: Flags, path: Clean, number: nat): Result<bool, PromptError> {
    match directive.condition
    case None => Ok(true)
    case Some(condition) =>
      if condition.flag in flags then Ok(flags[condition.flag] != condition.negated)
      else Err(UnknownFlag(condition.flag, path, number))
  }

  function ExpandLine(source: Source, path: Clean, line: string, number: nat, flags: Flags, stack: seq<Clean>)
    : Result<Composed, PromptError>
    requires Nested(stack) && path != []
    decreases MAX_INCLUDE_DEPTH - |stack|, 1
  {
    match Parse(line, path, number)
    case Err(why) => Err(why)
    case Ok(None) => Ok(Composed(line + "\n", 0))
    case Ok(Some(directive)) =>
      match Followed(directive, flags, path, number)
      case Err(why) => Err(why)
      case Ok(false) => Ok(Composed("", 0))
      case Ok(true) =>
        match Target(path, directive)
        case Err(why) => Err(why)
        case Ok(target) => ExpandFile(source, target, flags, stack)
  }

  /** The text of `entry` under `flags`, or the first thing wrong on the way. */
  function ResolvePrompt(source: Source, entry: string, flags: Flags): Result<string, PromptError> {
    match Confine(Components(entry))
    case None => Err(Escapes(Components(entry)))
    case Some(path) =>
      match ExpandFile(source, path, flags, [])
      case Err(why) => Err(why)
      case Ok(composed) => Ok(composed.text)
  }

  // ----- the same two walkers, as they push and pop -----

  lemma WalkStep(source: Source, path: Clean, lines: seq<string>, at: nat, stack: seq<Clean>, walked: Walked)
    requires Nested(stack) && path != [] && at < |lines|
    ensures WalkLines(source, path, lines, at, stack, walked)
            == match WalkLine(source, path, lines[at], at + 1, stack, walked)
               case Err(why) => Err(why)
               case Ok(done) => WalkLines(source, path, lines, at + 1, stack, done)
  {
  }

  /** Walks every branch of the include graph under the file at `path`. */
  method Walk(source: Source, path: Clean, stack: seq<Clean>, before: Walked)
    returns (failed: Option<PromptError>, after: seq<Clean>, walked: Walked)
    requires Nested(stack) && path != []
    ensures match WalkFile(source, path, stack, before)
            case Ok(done) => failed == None && after == stack && walked == done
            case Err(why) => failed == Some(why)
    decreases MAX_INCLUDE_DEPTH - |stack|, 0
  {
    after, walked := stack, before;
    if |stack| >= MAX_INCLUDE_DEPTH {
      return Some(TooDeep(path, MAX_INCLUDE_DEPTH)), after, walked;
    }
    if path in stack {
      return Some(Cycle(path)), after, walked;
    }
    if walked.budget == 0 {
      return Some(TooWide(path, MAX_INCLUDE_EXPANSIONS)), after, walked;
    }
    walked := walked.(budget := walked.budget - 1);
    var text := source(path);
    if text.Err? {
      return Some(text.error), after, walked;
    }
    after := after + [path];
    var lines := Lines(text.value);
    ghost var whole := WalkLines(source, path, lines, 0, after, walked);
    for k := 0 to |lines|
      invariant after == stack + [path]
      invariant whole == WalkLines(source, path, lines, k, after, walked)
    {
      hide WalkLines, WalkLine;
      WalkStep(source, path, lines, k, after, walked);
      failed, after, walked := WalkOne(source, path, lines[k], k + 1, after, walked);
      if failed.Some? {
        return;
      }
    }
    after := after[..|after| - 1];
    failed := None;
  }

  method WalkOne(source: Source, path: Clean, line: string, number: nat, stack: seq<Clean>, before: Walked)
    returns (failed: Option<PromptError>, after: seq<Clean>, walked: Walked)
    requires Nested(stack) && path != []
    ensures match WalkLine(source, path, line, number, stack, before)
            case Ok(done) => failed == None && after == stack && walked == done
            case Err(why) => failed == Some(why)
    decreases MAX_INCLUDE_DEPTH - |stack|, 1
  {
    after, walked := stack, before;
    var parsed := Parse(line, path, number);
    if parsed.Err? {
      return Some(parsed.error), after, walked;
    }
    if parsed.value.None? {
      return None, after, walked;
    }
    var directive := parsed.value.value;
    walked := walked.(found := walked.found + Mentioned(directive));
    var target := Target(path, directive);
    if target.Err? {
      return Some(target.error), after, walked;
    }
    failed, after, walked := Walk(source, target.value, after, walked);
  }

  ghost function Onto(output: string, r: Result<Composed, PromptError>): Result<string, PromptError> {
    match r case Err(why) => Err(why) case Ok(composed) => Ok(output + composed.text)
  }

  lemma OntoStep(source: Source, path: Clean, lines: seq<string>, at: nat, flags: Flags, stack: seq<Clean>, out: string)
    requires Nested(stack) && path != [] && at < |lines|
    ensures Onto(out, ExpandLines(source, path, lines, at, flags, stack))
            == match ExpandLine(source, path, lines[at], at + 1, flags, stack)
               case Err(why) => Err(why)
               case Ok(first) => Onto(out + first.text, ExpandLines(source, path, lines, at + 1, flags, stack))
  {
    match ExpandLine(source, path, lines[at], at + 1, flags, stack)
    case Err(_) =>
    case Ok(first) =>
      var rest := ExpandLines(source, path, lines, at + 1, flags, stack);
      if rest.Ok? {
        assert out + (first.text + rest.value.text) == (out + first.text) + rest.value.text;
      }
  }

  /** Composes the file at `path` onto the end of `output`. */
  method Expand(source: Source, path: Clean, flags: Flags, stack: seq<Clean>, output: string)
    returns (failed: Option<PromptError>, after: seq<Clean>, out: string)
    requires Nested(stack) && path != []
    ensures match ExpandFile(source, path, flags, stack)
            case Ok(composed) => failed == None && after == stack && out == output + composed.text
            case Err(why) => failed == Some(why)
    decreases MAX_INCLUDE_DEPTH - |stack|, 0
  {
    after, out := stack, output;
    if |stack| >= MAX_INCLUDE_DEPTH {
      return Some(TooDeep(path, MAX_INCLUDE_DEPTH)), after, out;
    }
    if path in stack {
      return Some(Cycle(path)), after, out;
    }
    var text := source(path);
    if text.Err? {
      return Some(text.error), after, out;
    }
    failed, after, out := ExpandEach(source, path, Lines(text.value), flags, stack + [path], output);
    if failed.None? {
      after := after[..|after| - 1];
    }
  }

  method ExpandEach(source: Source, path: Clean, lines: seq<string>, flags: Flags, stack: seq<Clean>, output: string)
    returns (failed: Option<PromptError>, after: seq<Clean>, out: string)
    requires Nested(stack) && path != []
    ensures match Onto(output, ExpandLines(source, path, lines, 0, flags, stack))
            case Ok(text) => failed == None && after == stack && out == text
            case Err(why) => failed == Some(why)
    decreases MAX_INCLUDE_DEPTH - |stack|, 2
  {
    after, out := stack, output;
    for k := 0 to |lines|
      invariant after == stack
      invariant Onto(output, ExpandLines(source, path, lines, 0, flags, stack))
                == Onto(out, ExpandLines(source, path, lines, k, flags, stack))
    {
      OntoStep(source, path, lines, k, flags, stack, out);
      failed, after, out := ExpandOne(source, path, lines[k], k + 1, flags, after, out);
      if failed.Some? {
        return;
      }
    }
    failed := None;
  }

  method ExpandOne(
      source: Source, path: Clean, line: string, number: nat, flags: Flags, stack: seq<Clean>, output: string)
    returns (failed: Option<PromptError>, after: seq<Clean>, out: string)
    requires Nested(stack) && path != []
    ensures match ExpandLine(source, path, line, number, flags, stack)
            case Ok(composed) => failed == None && after == stack && out == output + composed.text
            case Err(why) => failed == Some(why)
    decreases MAX_INCLUDE_DEPTH - |stack|, 1
  {
    after, out := stack, output;
    var parsed := Parse(line, path, number);
    if parsed.Err? {
      return Some(parsed.error), after, out;
    }
    if parsed.value.None? {
      return None, after, out + line + "\n";
    }
    var directive := parsed.value.value;
    var follow := Followed(directive, flags, path, number);
    if follow.Err? {
      return Some(follow.error), after, out;
    }
    if !follow.value {
      return None, after, out;
    }
    var target := Target(path, directive);
    if target.Err? {
      return Some(target.error), after, out;
    }
    failed, after, out := Expand(source, target.value, flags, after, out);
  }
}
