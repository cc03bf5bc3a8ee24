/** Which rejected prompts would have failed to compose, and which never would. */
module PromptFaults {
  import opened Prelude
  import opened Text
  import opened Paths
  import opened Prompt
  import opened PromptAgreement

  /** Whether a directive can be followed under flags with the values assumed. */
  predicate Compatible(directive: Directive, assumed: Flags) {
    match directive.condition
    case None => true
    case Some(c) => c.flag in assumed ==> assumed[c.flag] == !c.negated
  }

  /** What following it adds to what is assumed. */
  function Assuming(directive: Directive, assumed: Flags): Flags {
    match directive.condition case None => assumed case Some(c) => assumed[c.flag := !c.negated]
  }

  /** Some branch of includes whose conditions can all hold together, and with what is assumed, ends in a fault:
      too deep, a cycle, a file that cannot be read, a malformed directive, or a path that escapes. */
  ghost predicate FaultyFile(source: Source, path: Clean, stack: seq<Clean>, assumed: Flags)
    requires Nested(stack) && path != []
    decreases MAX_INCLUDE_DEPTH - |stack|, 0
  {
    || |stack| >= MAX_INCLUDE_DEPTH || path in stack || source(path).Err?
    || exists k: nat :: k < |Lines(source(path).value)|
         && FaultyLine(source, path, Lines(source(path).value)[k], k + 1, stack + [path], assumed)
  }

  ghost predicate FaultyLine(
      source: Source, path: Clean, line: string, number: nat, stack: seq<Clean>, assumed: Flags)
    requires Nested(stack) && path != []
    decreases MAX_INCLUDE_DEPTH - |stack|, 1
  {
    match Parse(line, path, number)
    case Err(_) => true
    case Ok(None) => false
    case Ok(Some(directive)) =>
      && Compatible(directive, assumed)
      && match Target(path, directive)
         case Err(_) => true
         case Ok(target) => FaultyFile(source, target, stack, Assuming(directive, assumed))
  }

  ghost predicate Faulty(source: Source, entry: string) {
    match Confine(Components(entry)) case None => true case Some(path) => FaultyFile(source, path, [], map[])
  }

  // ----- every flag a prompt mentions, in a branch or out of it -----

  function MentionsFile(source: Source, path: Clean, stack: seq<Clean>): set<string>
    requires Nested(stack) && path != []
    decreases MAX_INCLUDE_DEPTH - |stack|, 0
  {
    if |stack| >= MAX_INCLUDE_DEPTH || path in stack || source(path).Err? then {}
    else MentionsLines(source, path, Lines(source(path).value), 0, stack + [path])
  }

  function MentionsLines(source: Source, path: Clean, lines: seq<string>, at: nat, stack: seq<Clean>): set<string>
    requires Nested(stack) && path != [] && at <= |lines|
    decreases MAX_INCLUDE_DEPTH - |stack|, 1 + |lines| - at
  {
    if at == |lines| then {}
    else MentionsLine(source, path, lines[at], at + 1, stack) + MentionsLines(source, path, lines, at + 1, stack)
  }

  function MentionsLine(source: Source, path: Clean, line: string, number: nat, stack: seq<Clean>): set<string>
    requires Nested(stack) && path != []
    decreases MAX_INCLUDE_DEPTH - |stack|, 1
  {
    match Parse(line, path, number)
    case Err(_) => {}
    case Ok(None) => {}
    case Ok(Some(directive)) =>
      var tested := if directive.condition.Some? then {directive.condition.value.flag} else {};
      match Target(path, directive)
      case Err(_) => tested
      case Ok(target) => tested + MentionsFile(source, target, stack)
  }

  function MentionedFlags(source: Source, entry: string): set<string> {
    match Confine(Components(entry)) case None => {} case Some(path) => MentionsFile(source, path, [])
  }

  lemma {:induction false} FileFinds(source: Source, path: Clean, stack: seq<Clean>, before: Walked)
    requires Nested(stack) && path != []
    ensures WalkFile(source, path, stack, before).Ok? ==>
              WalkFile(source, path, stack, before).value.found == before.found + MentionsFile(source, path, stack)
    decreases MAX_INCLUDE_DEPTH - |stack|, 0
  {
    hide Lines, WalkLines, MentionsLines;
    if |stack| < MAX_INCLUDE_DEPTH && path !in stack && before.budget > 0 && source(path).Ok? {
      LinesFind(source, path, Lines(source(path).value), 0, stack + [path], before.(budget := before.budget - 1));
    }
  }

  lemma {:induction false} LinesFind(
      source: Source, path: Clean, lines: seq<string>, at: nat, stack: seq<Clean>, before: Walked)
    requires Nested(stack) && path != [] && at <= |lines|
    ensures WalkLines(source, path, lines, at, stack, before).Ok? ==>
              WalkLines(source, path, lines, at, stack, before).value.found
              == before.found + MentionsLines(source, path, lines, at, stack)
    decreases MAX_INCLUDE_DEPTH - |stack|, 1 + |lines| - at
  {
    hide WalkLine, MentionsLine;
    if at < |lines| {
      LineFinds(source, path, lines[at], at + 1, stack, before);
      var one := WalkLine(source, path, lines[at], at + 1, stack, before);
      if one.Ok? {
        LinesFind(source, path, lines, at + 1, stack, one.value);
      }
    }
  }

  lemma {:induction false} LineFinds(
      source: Source, path: Clean, line: string, number: nat, stack: seq<Clean>, before: Walked)
    requires Nested(stack) && path != []
    ensures WalkLine(source, path, line, number, stack, before).Ok? ==>
              WalkLine(source, path, line, number, stack, before).value.found
              == before.found + MentionsLine(source, path, line, number, stack)
    decreases MAX_INCLUDE_DEPTH - |stack|, 1
  {
    hide WalkFile, MentionsFile;
    var parsed := Parse(line, path, number);
    if parsed.Ok? && parsed.value.Some? && Target(path, parsed.value.value).Ok? {
      var directive := parsed.value.value;
      FileFinds(source, Target(path, directive).value, stack, before.(found := before.found + Mentioned(directive)));
    }
  }

  /** The flags an accepted prompt is said to need are exactly those a line of it, or of what it includes, tests. */
  lemma FoundIsMentioned(source: Source, entry: string)
    ensures ReferencedFlags(source, entry).Ok? ==>
              ReferencedFlags(source, entry).value == MentionedFlags(source, entry)
  {
    if Confine(Components(entry)).Some? {
      FileFinds(source, Confine(Components(entry)).value, [], Walked(MAX_INCLUDE_EXPANSIONS, {}));
    }
  }

  // ----- flags that fail follow a faulty branch -----

  ghost predicate Extends(flags: Flags, assumed: Flags) {
    forall f :: f in assumed ==> f in flags && flags[f] == assumed[f]
  }

  lemma {:induction false} FailingFile(source: Source, path: Clean, flags: Flags, stack: seq<Clean>, assumed: Flags)
    requires Nested(stack) && path != [] && Extends(flags, assumed)
    requires MentionsFile(source, path, stack) <= flags.Keys && ExpandFile(source, path, flags, stack).Err?
    ensures FaultyFile(source, path, stack, assumed)
    decreases MAX_INCLUDE_DEPTH - |stack|, 0
  {
    if |stack| < MAX_INCLUDE_DEPTH && path !in stack && source(path).Ok? {
      var k := FailingLines(source, path, Lines(source(path).value), 0, flags, stack + [path], assumed);
    }
  }

  lemma LinesFirst(source: Source, path: Clean, lines: seq<string>, at: nat, flags: Flags, stack: seq<Clean>)
    requires Nested(stack) && path != [] && at <= |lines|
    ensures ExpandLines(source, path, lines, at, flags, stack).Err? ==> at < |lines|
    ensures at < |lines| ==>
              MentionsLines(source, path, lines, at, stack)
              == MentionsLine(source, path, lines[at], at + 1, stack)
                 + MentionsLines(source, path, lines, at + 1, stack)
  {
    hide ExpandLine, MentionsLine;
  }

  lemma {:induction false} FailingLines(
      source: Source, path: Clean, lines: seq<string>, at: nat, flags: Flags, stack: seq<Clean>, assumed: Flags)
    returns (k: nat)
    requires Nested(stack) && path != [] && at <= |lines| && Extends(flags, assumed)
    requires MentionsLines(source, path, lines, at, stack) <= flags.Keys
    requires ExpandLines(source, path, lines, at, flags, stack).Err?
    ensures k < |lines| && FaultyLine(source, path, lines[k], k + 1, stack, assumed)
    decreases MAX_INCLUDE_DEPTH - |stack|, 1 + |lines| - at
  {
    hide ExpandLines, ExpandLine, FaultyLine, MentionsLines, MentionsLine;
    LinesFirst(source, path, lines, at, flags, stack);
    ExpandLineFirst(source, path, lines, at, flags, stack);
    if ExpandLine(source, path, lines[at], at + 1, flags, stack).Err? {
      FailingLine(source, path, lines[at], at + 1, flags, stack, assumed);
      k := at;
    } else {
      k := FailingLines(source, path, lines, at + 1, flags, stack, assumed);
    }
  }

  lemma {:induction false} FailingLine(
      source: Source, path: Clean, line: string, number: nat, flags: Flags, stack: seq<Clean>, assumed: Flags)
    requires Nested(stack) && path != [] && Extends(flags, assumed)
    requires MentionsLine(source, path, line, number, stack) <= flags.Keys
    requires ExpandLine(source, path, line, number, flags, stack).Err?
    ensures FaultyLine(source, path, line, number, stack, assumed)
    decreases MAX_INCLUDE_DEPTH - |stack|, 1
  {
    var parsed := Parse(line, path, number);
    if parsed.Ok? {
      var directive := parsed.value.value;
      assert directive.condition.Some? ==> directive.condition.value.flag in Mentioned(directive);
      if Target(path, directive).Ok? {
        FailingFile(source, Target(path, directive).value, flags, stack, Assuming(directive, assumed));
      }
    }
  }

  // ----- a faulty branch fails for all flags that follow it -----

  lemma {:induction false} FaultyFileFails(source: Source, path: Clean, stack: seq<Clean>, assumed: Flags)
    returns (more: Flags)
    requires Nested(stack) && path != [] && FaultyFile(source, path, stack, assumed)
    ensures Extends(more, assumed)
    ensures forall flags :: Extends(flags, more) ==> ExpandFile(source, path, flags, stack).Err?
    decreases MAX_INCLUDE_DEPTH - |stack|, 0
  {
    more := assumed;
    if |stack| < MAX_INCLUDE_DEPTH && path !in stack && source(path).Ok? {
      var lines := Lines(source(path).value);
      var k: nat :| k < |lines| && FaultyLine(source, path, lines[k], k + 1, stack + [path], assumed);
      more := FaultyLineFails(source, path, lines[k], k + 1, stack + [path], assumed);
      forall flags | Extends(flags, more) ensures ExpandFile(source, path, flags, stack).Err? {
        OneLineFailsAll(source, path, lines, 0, k, flags, stack + [path]);
      }
    }
  }

  lemma {:induction false} FaultyLineFails(
      source: Source, path: Clean, line: string, number: nat, stack: seq<Clean>, assumed: Flags)
    returns (more: Flags)
    requires Nested(stack) && path != [] && FaultyLine(source, path, line, number, stack, assumed)
    ensures Extends(more, assumed)
    ensures forall flags :: Extends(flags, more) ==> ExpandLine(source, path, line, number, flags, stack).Err?
    decreases MAX_INCLUDE_DEPTH - |stack|, 1
  {
    more := assumed;
    var parsed := Parse(line, path, number);
    if parsed.Ok? {
      var directive := parsed.value.value;
      more := Assuming(directive, assumed);
      if Target(path, directive).Ok? {
        more := FaultyFileFails(source, Target(path, directive).value, stack, Assuming(directive, assumed));
      }
      assert directive.condition.Some? ==> directive.condition.value.flag in Assuming(directive, assumed);
    }
  }

  lemma {:induction false} OneLineFailsAll(
      source: Source, path: Clean, lines: seq<string>, at: nat, k: nat, flags: Flags, stack: seq<Clean>)
    requires Nested(stack) && path != [] && at <= k < |lines|
    requires ExpandLine(source, path, lines[k], k + 1, flags, stack).Err?
    ensures ExpandLines(source, path, lines, at, flags, stack).Err?
    decreases k - at
  {
    hide ExpandLines, ExpandLine;
    ExpandLineFirst(source, path, lines, at, flags, stack);
    if at < k {
      OneLineFailsAll(source, path, lines, at + 1, k, flags, stack);
    }
  }

  // ----- what a rejection means -----

  function Declaring(more: Flags, names: set<string>): Flags {
    map f | f in more.Keys + names :: if f in more then more[f] else true
  }

  /** Some flags that declare every flag mentioned fail to compose exactly when the prompt is faulty: when some
      branch with conditions that can hold together is at fault. Otherwise it composes under all of them,
      rejected or not; and no faulty prompt is accepted. */
  lemma RejectionIsRealExactlyWhenFaulty(source: Source, entry: string)
    ensures (exists flags: Flags ::
               MentionedFlags(source, entry) <= flags.Keys && ResolvePrompt(source, entry, flags).Err?)
            <==> Faulty(source, entry)
    ensures Faulty(source, entry) ==> ReferencedFlags(source, entry).Err?
  {
    var names := MentionedFlags(source, entry);
    if flags: Flags :| names <= flags.Keys && ResolvePrompt(source, entry, flags).Err? {
      if Confine(Components(entry)).Some? {
        FailingFile(source, Confine(Components(entry)).value, flags, [], map[]);
      }
    }
    if Faulty(source, entry) {
      var more := FaultyFails(source, entry);
      assert ResolvePrompt(source, entry, Declaring(more, names)).Err?;
      var found := match ReferencedFlags(source, entry) case Ok(found) => found case Err(_) => {};
      assert ResolvePrompt(source, entry, Declaring(more, found)).Err?;
      if ReferencedFlags(source, entry).Ok? {
        AcceptedPromptsCompose(source, entry, Declaring(more, found));
      }
    }
  }

  lemma FaultyFails(source: Source, entry: string) returns (more: Flags)
    requires Faulty(source, entry)
    ensures forall flags :: Extends(flags, more) ==> ResolvePrompt(source, entry, flags).Err?
    ensures forall names :: Extends(Declaring(more, names), more)
  {
    more := map[];
    if Confine(Components(entry)).Some? {
      more := FaultyFileFails(source, Confine(Components(entry)).value, [], map[]);
    }
  }

  /** Without conditions every rejection but one for the number of files is real, whatever the flags. */
  lemma UnconditionalRejectionsAreReal(source: Source, entry: string)
    requires Unconditional(source) && ReferencedFlags(source, entry).Err?
    requires !ReferencedFlags(source, entry).error.TooWide?
    ensures Faulty(source, entry) && forall flags :: ResolvePrompt(source, entry, flags).Err?
  {
    forall flags ensures ResolvePrompt(source, entry, flags).Err? {
      UnconditionalPromptsAgree(source, entry, flags);
    }
    RejectionIsRealExactlyWhenFaulty(source, entry);
    var flags := Declaring(map[], MentionedFlags(source, entry));
    assert MentionedFlags(source, entry) <= flags.Keys && ResolvePrompt(source, entry, flags).Err?;
  }

  // ----- a rejected prompt that always composes -----

  const GUARDED := Directive(Some(Condition("f", false)), "b")
  const OPPOSED := Directive(Some(Condition("f", true)), "c")

  /** One file includes `b` when `f` is set, and `b` includes a file that is not there when it is not. */
  function Contradicting(path: Clean): Result<string, PromptError> {
    if path == ["a"] then Ok(Written(GUARDED))
    else if path == ["b"] then Ok(Written(OPPOSED))
    else Err(Missing(path))
  }

  lemma OneLine(text: string)
    requires text != [] && '\n' !in text
    ensures Lines(text) == [text]
  {
    SplitPlain(text, '\n');
  }

  lemma OneName(name: string)
    requires name != "" && name != "." && name != ".." && '/' !in name
    ensures Components(name) == [Normal(name)]
    ensures Confine([Normal(name)]) == Some([name])
  {
    SplitPlain(name, '/');
    assert name[0] in name;
    assert Named([name]) == [Normal(name)] + Named([name][1..]);
    var cs := [Normal(name)];
    assert cs[..|cs| - 1] == [] && [] + [name] == [name];
    assert Resolve(cs[..|cs| - 1]) == Some([]);
  }

  lemma ContradictingTargets(file: Clean)
    requires |file| == 1
    ensures Target(file, GUARDED) == Ok(["b"]) && Target(file, OPPOSED) == Ok(["c"])
  {
    OneName("b");
    OneName("c");
  }

  lemma ContradictingLines(file: Clean, number: nat)
    ensures Lines(Written(GUARDED)) == [Written(GUARDED)] && Lines(Written(OPPOSED)) == [Written(OPPOSED)]
    ensures Parse(Written(GUARDED), file, number) == Ok(Some(GUARDED))
    ensures Parse(Written(OPPOSED), file, number) == Ok(Some(OPPOSED))
  {
    assert Written(GUARDED) == "@include(f) b" && Written(OPPOSED) == "@include(!f) c";
    OneLine(Written(GUARDED));
    OneLine(Written(OPPOSED));
    DirectiveReadsBack(GUARDED, file, number);
    DirectiveReadsBack(OPPOSED, file, number);
  }

  /** A file that is one directive, `to` being where it leads. */
  predicate OneDirective(source: Source, file: Clean, directive: Directive, to: Clean, stack: seq<Clean>) {
    && Nested(stack) && |stack| < MAX_INCLUDE_DEPTH && file != [] && file !in stack && to != []
    && source(file) == Ok(Written(directive)) && Lines(Written(directive)) == [Written(directive)]
    && Parse(Written(directive), file, 1) == Ok(Some(directive)) && Target(file, directive) == Ok(to)
    && directive.condition.Some?
  }

  lemma OneDirectiveWalks(
      source: Source, file: Clean, directive: Directive, to: Clean, stack: seq<Clean>, before: Walked)
    requires OneDirective(source, file, directive, to, stack) && before.budget > 0
    ensures Nested(stack + [file])
    ensures WalkFile(source, file, stack, before)
            == WalkFile(source, to, stack + [file],
                        Walked(before.budget - 1, before.found + {directive.condition.value.flag}))
  {
    var line, inner := Written(directive), stack + [file];
    var spent := before.(budget := before.budget - 1);
    var one := WalkLine(source, file, line, 1, inner, spent);
    assert WalkLines(source, file, [line], 0, inner, spent) == one;
  }

  lemma UnreadableFails(source: Source, file: Clean, stack: seq<Clean>, before: Walked)
    requires Nested(stack) && |stack| < MAX_INCLUDE_DEPTH && file != [] && file !in stack && before.budget > 0
    requires source(file).Err?
    ensures WalkFile(source, file, stack, before) == Err(source(file).error)
  {
  }

  /** An include of a file that cannot be read fails, whatever it tests. */
  lemma DeadIncludeFails(source: Source, b: Clean, inner: Directive, c: Clean, stack: seq<Clean>, before: Walked)
    requires OneDirective(source, b, inner, c, stack) && |stack| + 1 < MAX_INCLUDE_DEPTH
    requires source(c).Err? && c !in stack && c != b && before.budget > 1
    ensures WalkFile(source, b, stack, before) == Err(source(c).error)
  {
    OneDirectiveWalks(source, b, inner, c, stack, before);
    UnreadableFails(source, c, stack + [b],
                    Walked(before.budget - 1, before.found + {inner.condition.value.flag}));
  }

  lemma OpposedIncludesFail(source: Source, a: Clean, outer: Directive, b: Clean, inner: Directive, c: Clean)
    requires OneDirective(source, a, outer, b, []) && OneDirective(source, b, inner, c, [] + [a])
    requires source(c).Err? && c != a && c != b
    ensures WalkFile(source, a, [], Walked(MAX_INCLUDE_EXPANSIONS, {})) == Err(source(c).error)
  {
    hide WalkFile, Parse, Lines, Target;
    var start := Walked(MAX_INCLUDE_EXPANSIONS, {});
    OneDirectiveWalks(source, a, outer, b, [], start);
    DeadIncludeFails(source, b, inner, c, [] + [a],
                     Walked(start.budget - 1, start.found + {outer.condition.value.flag}));
  }

  /** The file that includes another on the condition its own include denies is at fault nowhere: no flags
      follow both. */
  lemma ContradictingIsFaultless()
    ensures !Faulty(Contradicting, "a") && MentionedFlags(Contradicting, "a") <= {"f"}
  {
    hide OneDirective, FaultyFile, MentionsFile, Written, Contradicting;
    OneName("a");
    ContradictingOuter();
    ContradictingInner();
    ContradictingStacks();
    var stack: seq<Clean> := [] + [["a"]];
    OneDirectiveFaults(Contradicting, ["b"], OPPOSED, ["c"], stack, map["f" := true]);
    OneDirectiveFaults(Contradicting, ["a"], GUARDED, ["b"], [], map[]);
    OneDirectiveMentions(Contradicting, ["b"], OPPOSED, ["c"], stack);
    OneDirectiveMentions(Contradicting, ["a"], GUARDED, ["b"], []);
    UnreadableMentionsNothing(Contradicting, ["c"], stack + [["b"]]);
  }

  lemma ContradictingStacks()
    ensures Nested([] + [["a"]]) && Nested([] + [["a"]] + [["b"]]) && Contradicting(["c"]).Err?
  {
  }

  lemma FaultyOneLine(source: Source, file: Clean, line: string, stack: seq<Clean>, assumed: Flags)
    requires Nested(stack) && file != [] && |stack| < MAX_INCLUDE_DEPTH && file !in stack
    requires source(file).Ok? && Lines(source(file).value) == [line]
    ensures Nested(stack + [file])
    ensures FaultyFile(source, file, stack, assumed) <==> FaultyLine(source, file, line, 1, stack + [file], assumed)
  {
    hide Lines, FaultyLine;
    assert [line][0] == line;
  }

  lemma OneDirectiveFaults(
      source: Source, file: Clean, directive: Directive, to: Clean, stack: seq<Clean>, assumed: Flags)
    requires OneDirective(source, file, directive, to, stack)
    ensures Nested(stack + [file])
    ensures FaultyFile(source, file, stack, assumed)
            <==> Compatible(directive, assumed) && FaultyFile(source, to, stack + [file], Assuming(directive, assumed))
  {
    hide Written, Parse, Lines, Target, FaultyFile, Compatible;
    FaultyOneLine(source, file, Written(directive), stack, assumed);
  }

  lemma MentionsOneLine(source: Source, file: Clean, line: string, stack: seq<Clean>)
    requires Nested(stack) && file != []
    ensures MentionsLines(source, file, [line], 0, stack) == MentionsLine(source, file, line, 1, stack)
  {
    hide MentionsLine;
    assert MentionsLines(source, file, [line], 1, stack) == {};
  }

  lemma OneDirectiveMentions(source: Source, file: Clean, directive: Directive, to: Clean, stack: seq<Clean>)
    requires OneDirective(source, file, directive, to, stack)
    ensures Nested(stack + [file])
    ensures MentionsFile(source, file, stack) == Mentioned(directive) + MentionsFile(source, to, stack + [file])
  {
    hide Written, Parse, Lines, Target, MentionsLines;
    MentionsOneLine(source, file, Written(directive), stack + [file]);
  }

  lemma UnreadableMentionsNothing(source: Source, file: Clean, stack: seq<Clean>)
    requires Nested(stack) && file != [] && source(file).Err?
    ensures MentionsFile(source, file, stack) == {}
  {
  }

  /** A prompt that is rejected and yet composes under every value of its one flag. */
  lemma RejectedMayAlwaysCompose(flags: Flags)
    requires "f" in flags
    ensures ReferencedFlags(Contradicting, "a") == Err(Missing(["c"]))
    ensures ResolvePrompt(Contradicting, "a", flags).Ok?
  {
    hide OneDirective, Faulty, MentionedFlags, Written, WalkFile, ExpandFile;
    OneName("a");
    ContradictingOuter();
    ContradictingInner();
    OpposedIncludesFail(Contradicting, ["a"], GUARDED, ["b"], OPPOSED, ["c"]);
    ContradictingIsFaultless();
    RejectionIsRealExactlyWhenFaulty(Contradicting, "a");
  }

  lemma ContradictingOuter()
    ensures OneDirective(Contradicting, ["a"], GUARDED, ["b"], [])
  {
    hide Parse, Written, Lines, Target;
    ContradictingLines(["a"], 1);
    ContradictingTargets(["a"]);
  }

  lemma ContradictingInner()
    ensures OneDirective(Contradicting, ["b"], OPPOSED, ["c"], [] + [["a"]])
  {
    hide Parse, Written, Lines, Target;
    ContradictingLines(["b"], 1);
    ContradictingStacks();
    assert ["a"] != ["b"] by {
      assert "a"[0] != "b"[0];
    }
    ContradictingTargets(["b"]);
  }
}
