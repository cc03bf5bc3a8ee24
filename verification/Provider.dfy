/** Backward readers of a transcript, against a forward fold of the signs on its lines. */
module Provider {
  import opened Prelude
  import opened Text

  datatype Json =
    | Null | Bool(b: bool) | Number(text: string) | Str(s: string) | Array(items: seq<Json>)
    | Object(fields: map<string, Json>)
  {
    /** The member at `key`, when this is an object that has one. */
    function Get(key: string): Option<Json> {
      if Object? && key in fields then Some(fields[key]) else None
    }

    function AsStr(): Option<string> {
      if Str? then Some(s) else None
    }
  }

  /** One line of a transcript: an event, or text that is not one. */
  datatype Line = Event(value: Json) | Words(text: string)

  /** What is reported of a failure: each field that some line gave. */
  datatype Failure = Failure(result: Option<string>, requestId: Option<string>, message: Option<string>)

  function Or<T>(first: Option<T>, second: Option<T>): Option<T> {
    if first.Some? then first else second
  }

  // ----- what a line says about whether the run carried on -----

  datatype Sign =
    | CarriedOn
    | Failed(result: Option<string>, message: Option<string>, id: Option<string>)
    | FailedCall(callId: string)   // an id that counts only once a failure follows
    | Silent

  const BEFORE_MODEL := "Error: Model \""
  const AFTER_MODEL := "\" from --model flag is not available."

  /** The message of a line that is, but for white space, the start-up refusal of a model. */
  function ModelUnavailable(line: string): Option<string> {
    var trimmed := Trim(line);
    match StripPrefix(trimmed, BEFORE_MODEL)
    case None => None
    case Some(rest) =>
      if |rest| < |AFTER_MODEL| || rest[|rest| - |AFTER_MODEL|..] != AFTER_MODEL then None
      else
        var model := rest[..|rest| - |AFTER_MODEL|];
        if model == [] || '"' in model then None
        else match StripPrefix(trimmed, "Error: ") case Some(said) => Some(said) case None => Some(trimmed)
  }

  /** The text at `key` of an event's data. */
  function TextOf(event: Json, key: string): Option<string> {
    match event.Get("data")
    case None => None
    case Some(data) => match data.Get(key) case Some(value) => value.AsStr() case None => None
  }

  /** What a line of Copilot CLI's output says. */
  function CopilotSign(line: Line): Sign {
    match line
    case Words(text) =>
      (match ModelUnavailable(text) case Some(said) => Failed(None, Some(said), None) case None => Silent)
    case Event(event) =>
      match event.Get("type")
      case None => Silent
      case Some(kind) =>
        if kind == Str("tool.execution_start") then CarriedOn
        else if kind == Str("model.call_final_result") then
          match TextOf(event, "result")
          case None => Silent
          case Some(result) => if result == "success" then CarriedOn else Failed(Some(result), None, None)
        else if kind == Str("session.error") && TextOf(event, "errorType") == Some("query") then
          Failed(None, TextOf(event, "message"),
                 Or(TextOf(event, "providerCallId"), TextOf(event, "serviceRequestId")))
        else if kind == Str("model.call_failure") then
          match TextOf(event, "providerCallId") case Some(id) => FailedCall(id) case None => Silent
        else Silent
  }

  /** Whether `have` is what `want` asks for: an object must have each field asked for, and may have more. */
  predicate Fits(have: Json, want: Json)
    decreases want
  {
    if have.Object? && want.Object? then
      forall key :: key in want.fields ==> key in have.fields && Fits(have.fields[key], want.fields[key])
    else have == want
  }

  /** The string or number found by going down `keys`. */
  function At(event: Json, keys: seq<string>): Option<string>
    decreases |keys|
  {
    if keys == [] then
      match event case Str(s) => Some(s) case Number(text) => Some(text) case _ => None
    else match event.Get(keys[0])
      case None => None
      case Some(inner) => At(inner, keys[1..])
  }

  /** The events a runner declares: each shape an object, matched against whole events. */
  datatype Declared = Declared(
    failed: seq<map<string, Json>>, carriedOn: seq<map<string, Json>>, requestId: Option<string>)

  predicate AnyFits(event: Json, shapes: seq<map<string, Json>>) {
    exists shape :: shape in shapes && Fits(event, Object(shape))
  }

  function DeclaredSign(declared: Declared, line: Line): Sign {
    match line
    case Words(_) => Silent
    case Event(event) =>
      if AnyFits(event, declared.failed) then
        Failed(None, None,
          match declared.requestId case None => None case Some(path) => At(event, Split(path, '.')))
      else if AnyFits(event, declared.carriedOn) then CarriedOn
      else Silent
  }

  /** Fitting is kept by adding fields, at any depth. */
  lemma {:induction false} FitsMore(have: Json, more: Json, want: Json)
    requires Fits(have, want) && Fits(more, have)
    ensures Fits(more, want)
    decreases want
  {
    if have.Object? && want.Object? {
      forall key | key in want.fields
        ensures key in more.fields && Fits(more.fields[key], want.fields[key])
      {
        FitsMore(have.fields[key], more.fields[key], want.fields[key]);
      }
    }
  }

  // ----- what a line says, by what is in it -----

  /** What is found going down `keys` from the outside in. */
  function Down(event: Json, keys: seq<string>): Option<Json>
    decreases |keys|
  {
    if keys == [] then Some(event)
    else if event.Object? && keys[0] in event.fields then Down(event.fields[keys[0]], keys[1..])
    else None
  }

  ghost predicate Has(event: Json, keys: seq<string>, text: string) {
    Down(event, keys) == Some(Str(text))
  }

  lemma DownTwo(event: Json, key: string)
    ensures Down(event, ["type"]) == event.Get("type")
    ensures forall text :: Has(event, ["data", key], text) <==> TextOf(event, key) == Some(text)
  {
    assert ["type"][1..] == [] && ["data", key][1..] == [key] && [key][1..] == [];
    if event.Get("data").Some? {
      var data := event.Get("data").value;
      assert Down(event, ["data", key]) == Down(data, [key]) == data.Get(key);
    }
  }

  lemma KindsDiffer()
    ensures "tool.execution_start" != "model.call_final_result" && "tool.execution_start" != "session.error"
    ensures "tool.execution_start" != "model.call_failure" && "model.call_final_result" != "session.error"
    ensures "model.call_final_result" != "model.call_failure" && "session.error" != "model.call_failure"
  {
    assert |"tool.execution_start"| == 20 && |"model.call_final_result"| == 23;
    assert |"session.error"| == 13 && |"model.call_failure"| == 18;
  }

  /** What Copilot CLI's lines say. A run carried on when a tool starts or a model call succeeds; a call failed by its
      final result, by an error of the query, or by the refusal of a model at start-up; and the record of a failed
      call names it. */
  lemma CopilotSays(line: Line)
    ensures CopilotSign(line).CarriedOn?
            <==> line.Event? && (|| Has(line.value, ["type"], "tool.execution_start")
                                 || (Has(line.value, ["type"], "model.call_final_result")
                                     && Has(line.value, ["data", "result"], "success")))
    ensures CopilotSign(line).FailedCall?
            <==> line.Event? && Has(line.value, ["type"], "model.call_failure")
                 && exists id :: Has(line.value, ["data", "providerCallId"], id)
    ensures CopilotSign(line).Failed?
            <==> if line.Words? then ModelUnavailable(line.text).Some?
                 else || (Has(line.value, ["type"], "model.call_final_result")
                          && exists result :: result != "success" && Has(line.value, ["data", "result"], result))
                      || (Has(line.value, ["type"], "session.error") && Has(line.value, ["data", "errorType"], "query"))
  {
    KindsDiffer();
    if line.Event? {
      DownTwo(line.value, "result");
      DownTwo(line.value, "errorType");
      DownTwo(line.value, "providerCallId");
    }
  }

  /** And what each gives of the failure. */
  lemma CopilotGives(line: Line)
    ensures match CopilotSign(line)
            case FailedCall(id) => line.Event? && Has(line.value, ["data", "providerCallId"], id)
            case Failed(result, message, id) =>
              if line.Words? then result == None && message == ModelUnavailable(line.text) && id == None
              else if Has(line.value, ["type"], "session.error") then
                && result == None
                && (forall said :: message == Some(said) <==> Has(line.value, ["data", "message"], said))
                && (forall call :: Has(line.value, ["data", "providerCallId"], call) ==> id == Some(call))
                && ((forall call :: !Has(line.value, ["data", "providerCallId"], call)) ==>
                      forall call :: id == Some(call) <==> Has(line.value, ["data", "serviceRequestId"], call))
              else
                && result.Some? && Has(line.value, ["data", "result"], result.value) && message == None && id == None
            case _ => true
  {
    KindsDiffer();
    if line.Event? {
      DownTwo(line.value, "result");
      DownTwo(line.value, "message");
      DownTwo(line.value, "providerCallId");
      DownTwo(line.value, "serviceRequestId");
    }
  }

  /** Only a whole line, but for white space around it, that names a model between those words is such a refusal; what
      is said is that line without `Error: `. */
  lemma RefusalIs(line: string, model: string)
    ensures model != "" && '"' !in model && Trim(line) == BEFORE_MODEL + model + AFTER_MODEL ==>
              ModelUnavailable(line) == Some("Model \"" + model + AFTER_MODEL)
    ensures ModelUnavailable(line).Some? ==>
              exists named :: named != "" && '"' !in named && Trim(line) == BEFORE_MODEL + named + AFTER_MODEL
  {
    hide Trim;
    var trimmed := Trim(line);
    if model != "" && '"' !in model && trimmed == BEFORE_MODEL + model + AFTER_MODEL {
      NamesModel(trimmed, model);
    }
    if ModelUnavailable(line).Some? {
      var rest := trimmed[|BEFORE_MODEL|..];
      var named := rest[..|rest| - |AFTER_MODEL|];
      assert rest == named + AFTER_MODEL && trimmed == BEFORE_MODEL + rest;
      assert trimmed == BEFORE_MODEL + named + AFTER_MODEL;
    }
  }

  lemma NamesModel(line: string, model: string)
    requires line == BEFORE_MODEL + model + AFTER_MODEL
    ensures StripPrefix(line, BEFORE_MODEL) == Some(model + AFTER_MODEL)
    ensures StripPrefix(line, "Error: ") == Some("Model \"" + model + AFTER_MODEL)
    ensures var rest := model + AFTER_MODEL; rest[|rest| - |AFTER_MODEL|..] == AFTER_MODEL
    ensures var rest := model + AFTER_MODEL; rest[..|rest| - |AFTER_MODEL|] == model
  {
    assert BEFORE_MODEL == "Error: " + "Model \"";
    assert line == "Error: " + ("Model \"" + model + AFTER_MODEL);
    assert line == BEFORE_MODEL + (model + AFTER_MODEL);
  }

  /** Fitting is having everything asked for at every depth: whatever is found going down what is asked for, is found
      going down the same keys, equal unless both are objects. */
  lemma {:induction false} FitsEverywhere(have: Json, want: Json)
    ensures Fits(have, want) <==> forall keys :: HasAt(have, want, keys)
    decreases want
  {
    if Fits(have, want) {
      forall keys ensures HasAt(have, want, keys) {
        FitsDown(have, want, keys);
      }
    } else if have.Object? && want.Object? {
      var key :| key in want.fields && !(key in have.fields && Fits(have.fields[key], want.fields[key]));
      if key in have.fields {
        FitsEverywhere(have.fields[key], want.fields[key]);
        var keys :| !HasAt(have.fields[key], want.fields[key], keys);
        assert ([key] + keys)[1..] == keys;
        assert !HasAt(have, want, [key] + keys);
      } else {
        assert [key][1..] == [];
        assert Down(want, [key]) == Some(want.fields[key]);
        assert !HasAt(have, want, [key]);
      }
    } else {
      assert !HasAt(have, want, []);
    }
  }

  ghost predicate HasAt(have: Json, want: Json, keys: seq<string>) {
    match Down(want, keys)
    case None => true
    case Some(asked) =>
      match Down(have, keys)
      case None => false
      case Some(found) => found == asked || (found.Object? && asked.Object?)
  }

  lemma {:induction false} FitsDown(have: Json, want: Json, keys: seq<string>)
    requires Fits(have, want)
    ensures HasAt(have, want, keys)
    decreases |keys|
  {
    if keys != [] && want.Object? && keys[0] in want.fields {
      if have.Object? {
        FitsDown(have.fields[keys[0]], want.fields[keys[0]], keys[1..]);
      }
    }
  }

  lemma {:induction false} AtIsDown(event: Json, keys: seq<string>)
    ensures At(event, keys)
            == match Down(event, keys)
               case Some(Str(s)) => Some(s)
               case Some(Number(text)) => Some(text)
               case _ => None
    decreases |keys|
  {
    if keys != [] && event.Get(keys[0]).Some? {
      AtIsDown(event.Get(keys[0]).value, keys[1..]);
    }
  }

  /** What a declared runner's lines say: a failure when the event fits a shape of one, whatever else it fits; that the
      run carried on when it fits only a shape of that; and the id is what is found down the declared path. */
  lemma DeclaredSays(declared: Declared, line: Line, keys: seq<string>)
    ensures DeclaredSign(declared, line).Failed?
            <==> line.Event? && exists shape :: shape in declared.failed && Fits(line.value, Object(shape))
    ensures DeclaredSign(declared, line).CarriedOn?
            <==> line.Event? && !DeclaredSign(declared, line).Failed?
                 && exists shape :: shape in declared.carriedOn && Fits(line.value, Object(shape))
    ensures !DeclaredSign(declared, line).FailedCall?
    ensures DeclaredSign(declared, line).Failed? ==>
              DeclaredSign(declared, line).result == None && DeclaredSign(declared, line).message == None
              && (declared.requestId == None ==> DeclaredSign(declared, line).id == None)
    ensures DeclaredSign(declared, line).Failed? && keys != [] && (forall key :: key in keys ==> '.' !in key)
            && declared.requestId == Some(Join(keys, '.')) ==>
              forall id :: DeclaredSign(declared, line).id == Some(id)
                <==> Down(line.value, keys) == Some(Str(id)) || Down(line.value, keys) == Some(Number(id))
  {
    hide Fits, Split;
    if keys != [] && forall key :: key in keys ==> '.' !in key {
      SplitOfJoin(keys, '.');
      if line.Event? {
        AtIsDown(line.value, keys);
      }
    }
  }

  // ----- the forward account: reset at every sign the run carried on -----

  /** The failure standing so far, and the id of a failed call whose failure has not come yet. */
  datatype Tally = Tally(found: Option<Failure>, held: Option<string>)

  function Next(t: Tally, sign: Sign): Tally {
    match sign
    case Silent => t
    case CarriedOn => Tally(None, None)
    case FailedCall(id) => t.(held := Some(id))
    case Failed(result, message, id) =>
      var was := match t.found case Some(f) => f case None => Failure(None, None, None);
      Tally(Some(Failure(Or(result, was.result), Or(Or(id, t.held), was.requestId), Or(message, was.message))), None)
  }

  function Forward(signs: seq<Sign>): Tally {
    if signs == [] then Tally(None, None)
    else Next(Forward(signs[..|signs| - 1]), signs[|signs| - 1])
  }

  /** What stands of the fold when the signs are over. */
  function Verdict(signs: seq<Sign>): Option<Failure> {
    Forward(signs).found
  }

  // ----- the readers: backwards, keeping the first of each they meet -----

  /** What a reader going backwards has, given what was standing before where it has got to. */
  function Over(t: Tally, found: Option<Failure>): Option<Failure> {
    match found
    case None => t.found
    case Some(f) =>
      var was := match t.found case Some(g) => g case None => Failure(None, None, None);
      Some(Failure(Or(f.result, was.result), Or(f.requestId, Or(t.held, was.requestId)), Or(f.message, was.message)))
  }

  function Meet(sign: Sign, found: Option<Failure>): Option<Failure> {
    match sign
    case Failed(result, message, id) =>
      var f := match found case Some(g) => g case None => Failure(None, None, None);
      Some(Failure(Or(f.result, result), Or(f.requestId, id), Or(f.message, message)))
    case FailedCall(id) =>
      (match found
       case Some(f) => Some(f.(requestId := Or(f.requestId, Some(id))))
       case None => None)
    case _ => found
  }

  function CopilotSigns(lines: seq<Line>): seq<Sign> {
    seq(|lines|, i requires 0 <= i < |lines| => CopilotSign(lines[i]))
  }

  function DeclaredSigns(declared: Declared, lines: seq<Line>): seq<Sign> {
    seq(|lines|, i requires 0 <= i < |lines| => DeclaredSign(declared, lines[i]))
  }

  /** One sign for each line, in the order of the lines. */
  lemma OneSignEach(declared: Declared, lines: seq<Line>)
    ensures |CopilotSigns(lines)| == |lines| == |DeclaredSigns(declared, lines)|
    ensures forall k :: 0 <= k < |lines| ==> CopilotSigns(lines)[k] == CopilotSign(lines[k])
    ensures forall k :: 0 <= k < |lines| ==> DeclaredSigns(declared, lines)[k] == DeclaredSign(declared, lines[k])
  {
  }

  lemma OneBack(signs: seq<Sign>, k: nat, found: Option<Failure>)
    requires k < |signs|
    ensures Forward(signs[..k + 1]) == Next(Forward(signs[..k]), signs[k])
    ensures signs[k].CarriedOn? ==> Over(Forward(signs[..k + 1]), found) == found
    ensures !signs[k].CarriedOn? ==>
              Over(Forward(signs[..k + 1]), found) == Over(Forward(signs[..k]), Meet(signs[k], found))
  {
    assert signs[..k + 1][..k] == signs[..k];
  }

  /** Reads Copilot CLI's output from the end, up to the last sign the run carried on. */
  method Copilot(lines: seq<Line>) returns (found: Option<Failure>)
    ensures found == Verdict(CopilotSigns(lines))
  {
    found := None;
    ghost var signs := CopilotSigns(lines);
    assert signs[..|lines|] == signs;
    var k := |lines|;
    while k > 0
      invariant 0 <= k <= |lines|
      invariant Over(Forward(signs[..k]), found) == Verdict(signs)
    {
      k := k - 1;
      var sign := CopilotSign(lines[k]);
      OneBack(signs, k, found);
      if sign.CarriedOn? {
        return;
      }
      found := Meet(sign, found);
    }
  }

  /** Reads a runner's declared events the same way. */
  method DeclaredEvents(declared: Declared, lines: seq<Line>) returns (found: Option<Failure>)
    ensures found == Verdict(DeclaredSigns(declared, lines))
  {
    found := None;
    ghost var signs := DeclaredSigns(declared, lines);
    assert signs[..|lines|] == signs;
    if declared.failed == [] {
      NeverFailed(signs);
      return;
    }
    var k := |lines|;
    while k > 0
      invariant 0 <= k <= |lines|
      invariant Over(Forward(signs[..k]), found) == Verdict(signs)
    {
      k := k - 1;
      var sign := DeclaredSign(declared, lines[k]);
      OneBack(signs, k, found);
      if sign.CarriedOn? {
        return;
      }
      found := Meet(sign, found);
    }
  }

  lemma {:induction false} NeverFailed(signs: seq<Sign>)
    requires forall k: nat :: 0 <= k < |signs| ==> !signs[k].Failed?
    ensures Verdict(signs) == None
    decreases |signs|
  {
    if signs != [] {
      NeverFailed(signs[..|signs| - 1]);
    }
  }

  // ----- what a verdict is -----

  /** Whether the sign at `k` is after every sign that the run carried on. */
  predicate Last(signs: seq<Sign>, k: nat) {
    k < |signs| && forall j: nat :: k <= j < |signs| ==> !signs[j].CarriedOn?
  }

  /** A failure is reported exactly when one follows the last sign that the run carried on. */
  lemma {:induction false} ReportedWhenLast(signs: seq<Sign>)
    ensures Verdict(signs).Some? <==> exists k: nat :: Last(signs, k) && signs[k].Failed?
    decreases |signs|
  {
    if signs != [] {
      var front, n := signs[..|signs| - 1], |signs| - 1;
      ReportedWhenLast(front);
      forall k: nat | 0 <= k < n ensures Last(signs, k) <==> Last(front, k) && !signs[n].CarriedOn? {
        if Last(signs, k) { assert forall j: nat :: k <= j < n ==> front[j] == signs[j]; }
      }
      if k: nat :| Last(front, k) && front[k].Failed? && !signs[n].CarriedOn? {
        assert Last(signs, k) && signs[k].Failed?;
      }
      if signs[n].Failed? {
        assert Last(signs, n);
      }
      if k: nat :| Last(signs, k) && signs[k].Failed? {
        if k < n { assert Last(front, k) && front[k].Failed?; }
      }
    }
  }

  /** Nothing before a sign that the run carried on can matter, and such a sign clears what was found. */
  lemma {:induction false} CarryingOnClears(before: seq<Sign>, after: seq<Sign>)
    ensures Forward(before + [CarriedOn] + after) == Forward(after)
    ensures Verdict(before + [CarriedOn]) == None
    decreases |after|
  {
    var signs := before + [CarriedOn] + after;
    if after == [] {
      assert signs[..|signs| - 1] == before;
      assert signs == before + [CarriedOn];
    } else {
      var n := |after| - 1;
      assert signs[..|signs| - 1] == before + [CarriedOn] + after[..n];
      CarryingOnClears(before, after[..n]);
    }
  }

  /** What the sign at `k` says for a field of the failure. */
  datatype Field = Result | Message | RequestId

  /** A failed call's own record says an id only once the failure it led to has come. */
  predicate LedToFailure(signs: seq<Sign>, k: nat) {
    exists j: nat :: k < j < |signs| && signs[j].Failed?
  }

  function Says(signs: seq<Sign>, field: Field, k: nat): Option<string>
    requires k < |signs|
  {
    match signs[k]
    case Failed(result, message, id) =>
      (match field case Result => result case Message => message case RequestId => id)
    case FailedCall(id) => if field.RequestId? && LedToFailure(signs, k) then Some(id) else None
    case _ => None
  }

  /** `k` is the last sign, since the run carried on, to say something for `field`. */
  predicate Latest(signs: seq<Sign>, field: Field, k: nat) {
    && Last(signs, k) && Says(signs, field, k).Some?
    && forall j: nat :: k < j < |signs| ==> Says(signs, field, j).None?
  }

  function FieldOf(f: Failure, field: Field): Option<string> {
    match field case Result => f.result case Message => f.message case RequestId => f.requestId
  }

  /** The field of a failure is what the latest sign says for it, and nothing when none does. */
  ghost predicate IsLatest(signs: seq<Sign>, field: Field, value: Option<string>) {
    match value
    case Some(_) => exists k: nat :: Latest(signs, field, k) && Says(signs, field, k) == value
    case None => forall k: nat :: !Latest(signs, field, k)
  }

  /** The id held is that of the last failed call, when no failure has come since. */
  ghost predicate IsHeld(signs: seq<Sign>, held: Option<string>) {
    match held
    case Some(id) => exists k: nat :: Waiting(signs, k) && signs[k] == FailedCall(id)
    case None => forall k: nat :: !Waiting(signs, k)
  }

  predicate Waiting(signs: seq<Sign>, k: nat) {
    && Last(signs, k) && signs[k].FailedCall?
    && forall j: nat :: k < j < |signs| ==> !signs[j].Failed? && !signs[j].FailedCall?
  }

  lemma WaitingSnoc(front: seq<Sign>, sign: Sign)
    ensures forall k: nat :: k < |front| ==>
      (Waiting(front + [sign], k) <==> Waiting(front, k) && sign.Silent?)
    ensures Waiting(front + [sign], |front|) <==> sign.FailedCall?
  {
    var signs := front + [sign];
    forall k: nat | k < |front| ensures Waiting(signs, k) <==> Waiting(front, k) && sign.Silent? {
      assert signs[|front|] == sign;
      if Waiting(signs, k) {
        assert forall j: nat :: k <= j < |front| ==> front[j] == signs[j];
      }
    }
  }

  lemma {:induction false} HeldIsWaiting(signs: seq<Sign>)
    ensures IsHeld(signs, Forward(signs).held)
    decreases |signs|
  {
    if signs != [] {
      var front, sign := signs[..|signs| - 1], signs[|signs| - 1];
      assert signs == front + [sign];
      HeldIsWaiting(front);
      WaitingSnoc(front, sign);
      if sign.FailedCall? {
        assert Waiting(signs, |front|) && signs[|front|] == sign;
      } else if sign.Silent? && Forward(front).held.Some? {
        var k: nat :| Waiting(front, k) && front[k] == FailedCall(Forward(front).held.value);
        assert Waiting(signs, k) && signs[k] == front[k];
      }
    }
  }

  /** What one more sign does to what an earlier one says: only a failure changes it, by letting the
      failed calls still waiting speak. */
  lemma SaysSnoc(front: seq<Sign>, sign: Sign, field: Field, k: nat)
    requires k < |front|
    ensures Says(front + [sign], field, k)
            == if sign.Failed? && field.RequestId? && front[k].FailedCall? then Some(front[k].callId)
               else Says(front, field, k)
  {
    var signs := front + [sign];
    assert signs[k] == front[k];
    if sign.Failed? {
      assert signs[|front|].Failed?;
    }
    if LedToFailure(signs, k) && !sign.Failed? {
      var j: nat :| k < j < |signs| && signs[j].Failed?;
      assert front[j].Failed?;
    }
    if LedToFailure(front, k) {
      var j: nat :| k < j < |front| && front[j].Failed?;
      assert signs[j].Failed?;
    }
  }

  lemma LatestSnoc(front: seq<Sign>, sign: Sign, field: Field)
    requires !sign.CarriedOn? && !(sign.Failed? && field.RequestId?)
    ensures var signs := front + [sign];
            && (Latest(signs, field, |front|) <==> Says(signs, field, |front|).Some?)
            && forall k: nat :: k < |front| ==>
                 (Latest(signs, field, k) <==> Latest(front, field, k) && Says(signs, field, |front|).None?)
  {
    var signs := front + [sign];
    forall j: nat | j < |front| ensures Says(signs, field, j) == Says(front, field, j) && signs[j] == front[j] {
      SaysSnoc(front, sign, field, j);
    }
    forall k: nat | k < |front|
      ensures Latest(signs, field, k) <==> Latest(front, field, k) && Says(signs, field, |front|).None?
    {
      if Latest(signs, field, k) {
        assert Says(signs, field, |front|).None?;
        assert forall j: nat :: k <= j < |front| ==> !signs[j].CarriedOn?;
      }
    }
  }

  lemma FieldSnoc(front: seq<Sign>, sign: Sign, field: Field, before: Option<string>)
    requires !sign.CarriedOn? && !(sign.Failed? && field.RequestId?) && IsLatest(front, field, before)
    ensures var signs := front + [sign]; IsLatest(signs, field, Or(Says(signs, field, |front|), before))
  {
    var signs := front + [sign];
    LatestSnoc(front, sign, field);
    if Says(signs, field, |front|).Some? {
      assert Latest(signs, field, |front|);
    } else if before.Some? {
      var k: nat :| Latest(front, field, k) && Says(front, field, k) == before;
      SaysSnoc(front, sign, field, k);
      assert Latest(signs, field, k);
    }
  }

  /** A failed call no failure has followed leaves one waiting: the last such. */
  lemma {:induction false} LastCallWaits(signs: seq<Sign>, k: nat)
    requires Last(signs, k) && signs[k].FailedCall? && !LedToFailure(signs, k)
    ensures exists j: nat :: Waiting(signs, j)
    decreases |signs| - k
  {
    if j: nat :| k < j < |signs| && signs[j].FailedCall? {
      LastCallWaits(signs, j);
    } else {
      assert Waiting(signs, k);
    }
  }

  /** A failure's id, when it says none itself: that of the failed call still waiting, or the id before. */
  lemma IdSnoc(front: seq<Sign>, sign: Sign, held: Option<string>, before: Option<string>)
    requires sign.Failed? && IsHeld(front, held) && IsLatest(front, RequestId, before)
    ensures IsLatest(front + [sign], RequestId, Or(Or(sign.id, held), before))
  {
    var signs := front + [sign];
    forall j: nat | j < |front|
      ensures signs[j] == front[j]
      ensures Says(signs, RequestId, j)
              == if front[j].FailedCall? then Some(front[j].callId) else Says(front, RequestId, j)
    {
      SaysSnoc(front, sign, RequestId, j);
    }
    assert signs[|front|] == sign && Says(signs, RequestId, |front|) == sign.id;
    if sign.id.Some? {
      assert Latest(signs, RequestId, |front|);
    } else if held.Some? {
      var k: nat :| Waiting(front, k) && front[k] == FailedCall(held.value);
      HeldSpeaks(front, sign, k);
    } else {
      NothingHeldSpeaks(front, sign, before);
    }
  }

  lemma HeldSpeaks(front: seq<Sign>, sign: Sign, k: nat)
    requires sign.Failed? && sign.id.None? && Waiting(front, k)
    ensures Latest(front + [sign], RequestId, k)
    ensures Says(front + [sign], RequestId, k) == Some(front[k].callId)
  {
    var signs := front + [sign];
    forall j: nat | j < |front| ensures signs[j] == front[j] {
      SaysSnoc(front, sign, RequestId, j);
    }
    SaysSnoc(front, sign, RequestId, k);
    forall j: nat | k < j < |signs| ensures Says(signs, RequestId, j).None? && !signs[j].CarriedOn? {
      if j < |front| {
        SaysSnoc(front, sign, RequestId, j);
      }
    }
  }

  lemma NothingHeldSpeaks(front: seq<Sign>, sign: Sign, before: Option<string>)
    requires sign.Failed? && sign.id.None? && IsHeld(front, None) && IsLatest(front, RequestId, before)
    ensures IsLatest(front + [sign], RequestId, before)
  {
    var signs := front + [sign];
    forall j: nat | j < |front|
      ensures Last(signs, j) <==> Last(front, j)
      ensures Last(front, j) ==> Says(signs, RequestId, j) == Says(front, RequestId, j)
    {
      SaysSnoc(front, sign, RequestId, j);
      assert forall i: nat :: 0 <= i < |front| ==> signs[i] == front[i];
      if Last(front, j) && front[j].FailedCall? && !LedToFailure(front, j) {
        LastCallWaits(front, j);
      }
    }
    forall k: nat | k < |front| ensures Latest(signs, RequestId, k) <==> Latest(front, RequestId, k) {
      LatestCarries(front, sign, k);
    }
    if before.Some? {
      var k: nat :| Latest(front, RequestId, k) && Says(front, RequestId, k) == before;
      assert Latest(signs, RequestId, k);
    }
  }

  lemma LatestCarries(front: seq<Sign>, sign: Sign, k: nat)
    requires k < |front| && sign.Failed? && sign.id.None?
    requires forall j: nat :: j < |front| ==> (Last(front + [sign], j) <==> Last(front, j))
    requires forall j: nat :: j < |front| && Last(front, j) ==>
               Says(front + [sign], RequestId, j) == Says(front, RequestId, j)
    ensures Latest(front + [sign], RequestId, k) <==> Latest(front, RequestId, k)
  {
    var signs := front + [sign];
    assert Says(signs, RequestId, |front|).None?;
    if Last(front, k) {
      forall j: nat | k <= j < |front| ensures Says(signs, RequestId, j) == Says(front, RequestId, j) {
        assert Last(front, j);
      }
    }
  }

  /** Every field of the failure reported is the latest one said since the run carried on: its result,
      its message, and its request id, which a failed call's own record may say for the failure it led to. */
  lemma {:induction false} FieldsAreTheLatest(signs: seq<Sign>, field: Field)
    ensures match Verdict(signs)
            case Some(f) => IsLatest(signs, field, FieldOf(f, field))
            case None => IsLatest(signs, field, None)
    decreases |signs|
  {
    if signs != [] {
      var front, sign := signs[..|signs| - 1], signs[|signs| - 1];
      assert signs == front + [sign];
      if !sign.CarriedOn? {
        FieldsAreTheLatest(front, field);
        var before := match Verdict(front) case Some(f) => FieldOf(f, field) case None => None;
        if sign.Failed? && field.RequestId? {
          HeldIsWaiting(front);
          IdSnoc(front, sign, Forward(front).held, before);
        } else {
          FieldSnoc(front, sign, field, before);
        }
      }
    }
  }
}
