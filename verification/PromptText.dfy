/** What a composed prompt says: its lines in order, each include in the place of its line. */
module PromptText {
  import opened Prelude
  import opened Text
  import opened Paths
  import opened Prompt
  import opened PromptAgreement

  function TextOf(r: Result<Composed, PromptError>): Option<string> {
    match r case Ok(composed) => Some(composed.text) case Err(_) => None
  }

  function Both(first: Option<string>, rest: Option<string>): Option<string> {
    if first.Some? && rest.Some? then Some(first.value + rest.value) else None
  }

  /** Where a line is in its file changes only what is said when it is wrong. */
  lemma NumberingIsForErrors(
    source: Source, path: Clean, line: string, m: nat, n: nat, flags: Flags, stack: seq<Clean>)
    requires Nested(stack) && path != []
    ensures TextOf(ExpandLine(source, path, line, m, flags, stack))
            == TextOf(ExpandLine(source, path, line, n, flags, stack))
  {
    hide ExpandFile, ParseRest;
  }

  /** What lines compose to, one after another, wherever in a file they are. */
  function TextOfLines(source: Source, path: Clean, lines: seq<string>, flags: Flags, stack: seq<Clean>): Option<string>
    requires Nested(stack) && path != []
    decreases |lines|
  {
    if lines == [] then Some("")
    else Both(TextOf(ExpandLine(source, path, lines[0], 1, flags, stack)),
              TextOfLines(source, path, lines[1..], flags, stack))
  }

  lemma {:induction false} LinesCompose(
    source: Source, path: Clean, lines: seq<string>, at: nat, flags: Flags, stack: seq<Clean>)
    requires Nested(stack) && path != [] && at <= |lines|
    ensures TextOf(ExpandLines(source, path, lines, at, flags, stack))
            == TextOfLines(source, path, lines[at..], flags, stack)
    decreases |lines| - at
  {
    hide ExpandLine, ExpandFile;
    if at < |lines| {
      LinesCompose(source, path, lines, at + 1, flags, stack);
      NumberingIsForErrors(source, path, lines[at], 1, at + 1, flags, stack);
      assert lines[at..][1..] == lines[at + 1..];
    }
  }

  lemma {:induction false} LinesSplit(
    source: Source, path: Clean, before: seq<string>, after: seq<string>, flags: Flags, stack: seq<Clean>)
    requires Nested(stack) && path != []
    ensures TextOfLines(source, path, before + after, flags, stack)
            == Both(TextOfLines(source, path, before, flags, stack), TextOfLines(source, path, after, flags, stack))
    decreases |before|
  {
    hide ExpandLine;
    var rest := TextOfLines(source, path, after, flags, stack);
    if before == [] {
      assert before + after == after;
      assert rest.Some? ==> "" + rest.value == rest.value;
    } else {
      assert (before + after)[0] == before[0] && (before + after)[1..] == before[1..] + after;
      LinesSplit(source, path, before[1..], after, flags, stack);
      var first := TextOf(ExpandLine(source, path, before[0], 1, flags, stack));
      var middle := TextOfLines(source, path, before[1..], flags, stack);
      BothAreJoined(first, middle, rest);
    }
  }

  lemma BothAreJoined(a: Option<string>, b: Option<string>, c: Option<string>)
    ensures Both(a, Both(b, c)) == Both(Both(a, b), c)
  {
    if a.Some? && b.Some? && c.Some? {
      assert a.value + (b.value + c.value) == (a.value + b.value) + c.value;
    }
  }

  /** Lines none of which is a directive, as they come out. */
  function Plainly(lines: seq<string>): string {
    if lines == [] then "" else lines[0] + "\n" + Plainly(lines[1..])
  }

  predicate NoDirectives(lines: seq<string>) {
    forall line :: line in lines ==> !("@include" <= Trim(line))
  }

  /** Text that includes nothing comes out line for line. */
  lemma {:induction false} PlainTextStands(
    source: Source, path: Clean, lines: seq<string>, flags: Flags, stack: seq<Clean>)
    requires Nested(stack) && path != [] && NoDirectives(lines)
    ensures TextOfLines(source, path, lines, flags, stack) == Some(Plainly(lines))
    decreases |lines|
  {
    if lines != [] {
      assert lines[0] in lines && forall line :: line in lines[1..] ==> line in lines;
      PlainTextStands(source, path, lines[1..], flags, stack);
      PlainLineStands(source, path, lines[0], flags, stack);
    }
  }

  lemma PlainLineStands(source: Source, path: Clean, line: string, flags: Flags, stack: seq<Clean>)
    requires Nested(stack) && path != [] && !("@include" <= Trim(line))
    ensures TextOf(ExpandLine(source, path, line, 1, flags, stack)) == Some(line + "\n")
  {
    hide Trim;
  }

  /** What an include composes to in the place of its line: when its condition holds, the file it names, as
      though it had no condition; when it does not, nothing; and a flag nobody declared is refused by name. */
  lemma IncludesAreDecidedByFlags(
    source: Source, path: Clean, target: string, c: Condition, flags: Flags, stack: seq<Clean>)
    requires Nested(stack) && path != [] && IsName(c.flag)
    requires target != [] && Bare(target[0]) && Bare(target[|target| - 1])
    ensures var tested := ExpandLine(source, path, Written(Directive(Some(c), target)), 1, flags, stack);
            var plain := ExpandLine(source, path, Written(Directive(None, target)), 1, flags, stack);
            tested == if c.flag !in flags then Err(UnknownFlag(c.flag, path, 1))
                      else if flags[c.flag] == !c.negated then plain else Ok(Composed("", 0))
  {
    hide Written, Parse, ExpandFile, Confine, ResolveRelative, Components;
    DirectiveReadsBack(Directive(Some(c), target), path, 1);
    DirectiveReadsBack(Directive(None, target), path, 1);
  }

  /** A file with one include among lines that include nothing composes to the lines before it, what the
      file included composes to, and the lines after it. */
  lemma IncludingIsSubstituting(
    source: Source, path: Clean, before: seq<string>, target: string, after: seq<string>, flags: Flags,
    stack: seq<Clean>)
    requires Nested(stack) && path != [] && NoDirectives(before) && NoDirectives(after)
    requires target != [] && Bare(target[0]) && Bare(target[|target| - 1])
    requires Target(path, Directive(None, target)).Ok?
    ensures var lines := before + [Written(Directive(None, target))] + after;
            var included := ExpandFile(source, Target(path, Directive(None, target)).value, flags, stack);
            TextOf(ExpandLines(source, path, lines, 0, flags, stack))
            == Both(Both(Some(Plainly(before)), TextOf(included)), Some(Plainly(after)))
  {
    hide Written, Parse, ExpandFile, ExpandLines, Target, Plainly, NoDirectives;
    var line := Written(Directive(None, target));
    var lines := before + [line] + after;
    assert lines[0..] == lines;
    LinesCompose(source, path, lines, 0, flags, stack);
    LinesSplit(source, path, before + [line], after, flags, stack);
    LinesSplit(source, path, before, [line], flags, stack);
    PlainTextStands(source, path, before, flags, stack);
    PlainTextStands(source, path, after, flags, stack);
    DirectiveReadsBack(Directive(None, target), path, 1);
    OneLineText(source, path, line, flags, stack);
  }

  lemma OneLineText(source: Source, path: Clean, line: string, flags: Flags, stack: seq<Clean>)
    requires Nested(stack) && path != []
    ensures TextOfLines(source, path, [line], flags, stack) == TextOf(ExpandLine(source, path, line, 1, flags, stack))
  {
    hide ExpandLine;
    var text := TextOf(ExpandLine(source, path, line, 1, flags, stack));
    assert TextOfLines(source, path, [line][1..], flags, stack) == Some("");
    assert text.Some? ==> text.value + "" == text.value;
  }

  // ----- how deep includes may go -----

  /** `from` holds one line, an include of `to` without a condition. */
  ghost predicate IncludesJust(source: Source, from: Clean, to: Clean) {
    && source(from).Ok? && |Lines(source(from).value)| == 1
    && exists target :: Parse(Lines(source(from).value)[0], from, 1) == Ok(Some(Directive(None, target)))
                        && Target(from, Directive(None, target)) == Ok(to)
  }

  /** Files each of which includes the next and nothing else. */
  ghost predicate Nest(source: Source, files: seq<Clean>) {
    && files != [] && (forall i :: 0 <= i < |files| ==> files[i] != [])
    && (forall i, j :: 0 <= i < j < |files| ==> files[i] != files[j])
    && forall i :: 0 <= i < |files| - 1 ==> IncludesJust(source, files[i], files[i + 1])
  }

  /** Whether two prompts both compose, or fail alike. */
  predicate SameFate(a: Result<Composed, PromptError>, b: Result<Composed, PromptError>) {
    if b.Ok? then a.Ok? else a == Err(b.error)
  }

  lemma OneInclude(source: Source, from: Clean, to: Clean, flags: Flags, stack: seq<Clean>, before: Walked)
    requires Nested(stack) && |stack| < MAX_INCLUDE_DEPTH && from !in stack && from != [] && to != []
    requires IncludesJust(source, from, to) && before.budget > 0
    ensures Nested(stack + [from])
    ensures SameFate(ExpandFile(source, from, flags, stack), ExpandFile(source, to, flags, stack + [from]))
    ensures WalkFile(source, from, stack, before)
            == WalkFile(source, to, stack + [from], before.(budget := before.budget - 1))
  {
    hide Lines, Parse, Target;
    var lines := Lines(source(from).value);
    var inner, after := stack + [from], before.(budget := before.budget - 1);
    var target :| Parse(lines[0], from, 1) == Ok(Some(Directive(None, target)))
                  && Target(from, Directive(None, target)) == Ok(to);
    LastLine(source, from, lines, flags, inner);
    assert after.found + {} == after.found;
    assert WalkLine(source, from, lines[0], 1, inner, after) == WalkFile(source, to, inner, after);
    WalkLastLine(source, from, lines, inner, after);
  }

  lemma LastLine(source: Source, path: Clean, lines: seq<string>, flags: Flags, stack: seq<Clean>)
    requires Nested(stack) && path != [] && |lines| == 1
    ensures SameFate(ExpandLines(source, path, lines, 0, flags, stack),
                     ExpandLine(source, path, lines[0], 1, flags, stack))
  {
    hide ExpandLine;
  }

  lemma WalkLastLine(source: Source, path: Clean, lines: seq<string>, stack: seq<Clean>, before: Walked)
    requires Nested(stack) && path != [] && |lines| == 1
    ensures WalkLines(source, path, lines, 0, stack, before) == WalkLine(source, path, lines[0], 1, stack, before)
  {
    hide WalkLine;
  }

  /** Reading the first of such files comes to what reading the last comes to with the others being read. */
  lemma {:induction false} NestReaches(source: Source, files: seq<Clean>, i: nat, flags: Flags, found: set<string>)
    requires Nest(source, files) && i < |files| <= MAX_INCLUDE_DEPTH + 1
    ensures var n := |files| - 1;
            && Nested(files[..i]) && Nested(files[..n])
            && SameFate(ExpandFile(source, files[i], flags, files[..i]),
                        ExpandFile(source, files[n], flags, files[..n]))
            && WalkFile(source, files[i], files[..i], Walked(MAX_INCLUDE_EXPANSIONS - i, found))
               == WalkFile(source, files[n], files[..n], Walked(MAX_INCLUDE_EXPANSIONS - n, found))
    decreases |files| - i
  {
    hide ExpandFile, WalkFile, IncludesJust;
    PrefixIsNested(source, files, i);
    if i < |files| - 1 {
      assert IncludesJust(source, files[i], files[i + 1]) && files[..i] + [files[i]] == files[..i + 1];
      OneInclude(source, files[i], files[i + 1], flags, files[..i], Walked(MAX_INCLUDE_EXPANSIONS - i, found));
      NestReaches(source, files, i + 1, flags, found);
    }
  }

  lemma PrefixIsNested(source: Source, files: seq<Clean>, i: nat)
    requires Nest(source, files) && i < |files| <= MAX_INCLUDE_DEPTH + 1
    ensures Nested(files[..i]) && files[i] !in files[..i] && files[i] != []
    ensures i + 1 < |files| ==> files[i + 1] != []
  {
    hide IncludesJust;
  }

  /** Includes nest eight files deep, the prompt itself among them: files each of which includes the next compose, and
      are accepted, exactly when there are no more than eight and the last includes nothing; the ninth is too deep; and
      one that comes back to a file being read is a cycle. */
  lemma NestsToEight(source: Source, entry: string, files: seq<Clean>, flags: Flags)
    requires Nest(source, files) && Confine(Components(entry)) == Some(files[0])
    ensures |files| > 8 ==>
              && ResolvePrompt(source, entry, flags) == Err(TooDeep(files[8], 8))
              && ReferencedFlags(source, entry) == Err(TooDeep(files[8], 8))
    ensures var last := files[|files| - 1];
            |files| <= 8 && source(last).Ok? && NoDirectives(Lines(source(last).value)) ==>
              ResolvePrompt(source, entry, flags).Ok? && ReferencedFlags(source, entry).Ok?
    ensures forall j :: 0 <= j < |files| < 8 && IncludesJust(source, files[|files| - 1], files[j]) ==>
              && ResolvePrompt(source, entry, flags) == Err(Cycle(files[j]))
              && ReferencedFlags(source, entry) == Err(Cycle(files[j]))
  {
    hide IncludesJust, Lines, NoDirectives, ExpandLines, WalkLines, Components, Confine;
    var reached := if |files| > 8 then files[..9] else files;
    assert (forall i :: 0 <= i < |reached| ==> reached[i] == files[i]) && reached[..0] == [];
    assert Nest(source, reached);
    NestReaches(source, reached, 0, flags, {});
    var n := |reached| - 1;
    if |files| > 8 {
      assert |reached[..n]| == 8 && reached[n] == files[8];
    } else {
      PrefixIsNested(source, files, n);
      if source(files[n]).Ok? && NoDirectives(Lines(source(files[n]).value)) {
        PlainFileIsAccepted(source, files[n], flags, files[..n], Walked(MAX_INCLUDE_EXPANSIONS - n, {}));
      }
      forall j | 0 <= j < |files| < 8 && IncludesJust(source, files[n], files[j])
        ensures ResolvePrompt(source, entry, flags) == Err(Cycle(files[j]))
        ensures ReferencedFlags(source, entry) == Err(Cycle(files[j]))
      {
        ComesBack(source, files, j, flags, Walked(MAX_INCLUDE_EXPANSIONS - n, {}));
      }
    }
  }

  lemma ComesBack(source: Source, files: seq<Clean>, j: nat, flags: Flags, before: Walked)
    requires Nest(source, files) && j < |files| < MAX_INCLUDE_DEPTH && before.budget > 0
    requires IncludesJust(source, files[|files| - 1], files[j])
    ensures var n := |files| - 1;
            && Nested(files[..n])
            && ExpandFile(source, files[n], flags, files[..n]) == Err(Cycle(files[j]))
            && WalkFile(source, files[n], files[..n], before) == Err(Cycle(files[j]))
  {
    hide IncludesJust, Lines, ExpandLines, WalkLines;
    var n := |files| - 1;
    PrefixIsNested(source, files, n);
    assert files[..n] + [files[n]] == files && files[j] in files;
    OneInclude(source, files[n], files[j], flags, files[..n], before);
  }

  lemma PlainFileIsAccepted(source: Source, file: Clean, flags: Flags, stack: seq<Clean>, before: Walked)
    requires Nested(stack) && |stack| < MAX_INCLUDE_DEPTH && file !in stack && file != [] && before.budget > 0
    requires source(file).Ok? && NoDirectives(Lines(source(file).value))
    ensures ExpandFile(source, file, flags, stack).Ok? && WalkFile(source, file, stack, before).Ok?
  {
    var lines := Lines(source(file).value);
    hide Lines;
    LinesCompose(source, file, lines, 0, flags, stack + [file]);
    assert lines[0..] == lines;
    PlainTextStands(source, file, lines, flags, stack + [file]);
    PlainLinesWalk(source, file, lines, 0, stack + [file], before.(budget := before.budget - 1));
  }

  lemma {:induction false} PlainLinesWalk(
    source: Source, path: Clean, lines: seq<string>, at: nat, stack: seq<Clean>, before: Walked)
    requires Nested(stack) && path != [] && at <= |lines| && NoDirectives(lines)
    ensures WalkLines(source, path, lines, at, stack, before) == Ok(before)
    decreases |lines| - at
  {
    hide Trim;
    if at < |lines| {
      assert lines[at] in lines;
      PlainLinesWalk(source, path, lines, at + 1, stack, before);
    }
  }

  // ----- where an include leads -----

  /** An include is read from the directory of the file it is in: so many steps up, then names, leads to that
      directory's names without as many of its last, then those names, and escapes exactly when there are fewer to
      take off or nothing is left. One that starts at the root always escapes. */
  lemma IncludeLeads(
    dir: Clean, name: string, k: nat, names: seq<string>, rest: string, condition: Option<Condition>)
    requires PlainNames(names)
    ensures var target := Target(dir + [name], Directive(condition, Join(Ups(k) + names, '/')));
            if k <= |dir| && |dir| - k + |names| > 0 then target == Ok(dir[..|dir| - k] + names)
            else target.Err? && target.error.Escapes?
    ensures var target := Target(dir + [name], Directive(condition, "/" + rest));
            target.Err? && target.error.Escapes?
  {
    hide Resolve, Components, Join;
    var cs := Climb(k) + Normals(names);
    ComponentsOfClimb(k, names);
    TargetFrom(dir, name, Directive(condition, Join(Ups(k) + names, '/')));
    if k <= |dir| {
      ClimbThenName(dir, k, names);
    } else {
      ClimbsOut(dir, k, Normals(names));
    }
    RootEscapes(rest);
  }

  lemma TargetFrom(dir: Clean, name: string, directive: Directive)
    requires var cs := Components(directive.path); cs == [] || !Absolute(cs[0])
    ensures var target := Target(dir + [name], directive);
            match Resolve(Normals(dir) + Components(directive.path))
            case Some(names) => if names == [] then target.Err? && target.error.Escapes? else target == Ok(names)
            case None => target.Err? && target.error.Escapes?
  {
    hide Resolve, Components;
    var file := dir + [name];
    assert file[..|file| - 1] == dir;
    assert dir == [] ==> Normals(dir) + Components(directive.path) == Components(directive.path);
  }

  lemma RootEscapes(rest: string)
    ensures Components("/" + rest) != [] && Components("/" + rest)[0] == RootDir
    ensures Confine(Components("/" + rest)) == None
  {
    var cs := Components("/" + rest);
    assert cs[..1] == [RootDir] && cs[..1][..0] == [];
    ResolvePrefixFails(cs, 1);
  }

  /** And however it is spelled with `.` and doubled slashes, it leads where it would without them. */
  lemma DottedIncludeLeads(
    dir: Clean, name: string, a: seq<string>, dot: string, b: seq<string>, condition: Option<Condition>)
    requires dot == "." || (dot == "" && a != [])
    requires a + b != [] && (a + b)[0] != "" && forall part :: part in a + b ==> '/' !in part
    ensures var dotted := Target(dir + [name], Directive(condition, Join(a + [dot] + b, '/')));
            var plain := Target(dir + [name], Directive(condition, Join(a + b, '/')));
            if plain.Ok? then dotted == plain else dotted.Err? && dotted.error.Escapes?
  {
    hide Resolve, Components, Join;
    assert forall part :: part in a + [dot] + b ==> part == dot || part in a + b;
    DotsLeadNowhere(dir, a, dot, b);
    RelativeText(a + [dot] + b);
    RelativeText(a + b);
    TargetFrom(dir, name, Directive(condition, Join(a + [dot] + b, '/')));
    TargetFrom(dir, name, Directive(condition, Join(a + b, '/')));
  }

  lemma RelativeText(parts: seq<string>)
    requires parts != [] && parts[0] != "" && forall part :: part in parts ==> '/' !in part
    ensures var cs := Components(Join(parts, '/')); cs == [] || !Absolute(cs[0])
  {
    ComponentsOfParts(parts);
    NamedIsRelative(parts);
  }

  lemma {:induction false} NamedIsRelative(parts: seq<string>)
    ensures forall c :: c in Named(parts) ==> !Absolute(c)
    decreases |parts|
  {
    if parts != [] {
      NamedIsRelative(parts[1..]);
    }
  }
}
