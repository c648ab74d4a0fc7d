/**
  The Foreman's execution half: `execute_step` resolves one step's
  apprentice, substitutes the previous step's output for `"$PREV_OUTPUT"`,
  runs the apprentice and classifies what it returns; `handle_request`
  plans, then runs the steps in order and stops at the first failure.

  Dynamic import is replaced by a registry mapping module names to
  apprentices; an apprentice's `run` is a function from payload to what it
  returns or raises. Python's `str()` of floats, lists and dicts is the
  parameter `repr`.
 */
module StepExecutor {
  import opened Wrappers
  import opened Text
  import opened Json
  import opened PlanCompiler

  /** The package every apprentice module lives in. */
  const Prefix: string := "aura_core.apprentices."

  /** The reserved payload text that stands for the previous step's output. */
  const Sentinel: string := "$PREV_OUTPUT"

  // ---------------------------------------------------------------------
  // Module-name normalisation (slide_creator.py lines 228-231)
  // ---------------------------------------------------------------------

  /** A non-empty name without the package prefix gets it; other names stay. */
  function Normalize(name: string): (r: string)
    ensures r == [] <==> name == []
    ensures name != [] ==> StartsWith(r, Prefix)
    ensures StartsWith(name, Prefix) ==> r == name
    ensures name != [] && !StartsWith(name, Prefix) ==> r == Prefix + name
  {
    if name != [] && !StartsWith(name, Prefix) then
      assert (Prefix + name)[..|Prefix|] == Prefix;
      Prefix + name
    else name
  }

  /** Normalising twice is normalising once. */
  lemma NormalizeIdempotent(name: string)
    ensures Normalize(Normalize(name)) == Normalize(name)
  {
  }

  /** A short name resolves to the same module as its fully qualified form. */
  lemma NormalizeShortName(short: string)
    requires short != [] && !StartsWith(short, Prefix)
    ensures Normalize(short) == Normalize(Prefix + short) == Prefix + short
  {
    assert (Prefix + short)[..|Prefix|] == Prefix;
  }

  /** The step dict after slide_creator.py line 231: only a text `"apprentice"` entry can change. */
  function NormalizeEntries(entries: map<string, Value>): (r: map<string, Value>)
    ensures r.Keys == entries.Keys
    ensures forall k :: k in entries && k != "apprentice" ==> r[k] == entries[k]
    ensures "apprentice" in entries && entries["apprentice"].Str? ==>
      r["apprentice"] == Str(Normalize(entries["apprentice"].s))
    ensures "apprentice" in entries && !entries["apprentice"].Str? ==> r == entries
  {
    if "apprentice" in entries && entries["apprentice"].Str? then
      entries["apprentice" := Str(Normalize(entries["apprentice"].s))]
    else entries
  }

  // ---------------------------------------------------------------------
  // `replace_prev_output` (slide_creator.py lines 236-242)
  // ---------------------------------------------------------------------

  /** What `"$PREV_OUTPUT"` becomes: `str(output)`, or `""` when there is no output. */
  function Fill(previous: Value, repr: Value -> string): string {
    if previous == Null then "" else PyStr(previous, repr)
  }

  /**
    Every `"$PREV_OUTPUT"` text, at any depth in dict values and list items,
    becomes `fill`; dicts keep their keys and lists their lengths.
   */
  function Substitute(v: Value, fill: string): (r: Value)
    ensures r.Dict? <==> v.Dict?
    ensures r.Dict? ==> r.fields.Keys == v.fields.Keys
    ensures r.List? <==> v.List?
    ensures r.List? ==> |r.items| == |v.items|
  {
    match v
    case Dict(fields) => Dict(map k | k in fields :: Substitute(fields[k], fill))
    case List(items) => List(seq(|items|, i requires 0 <= i < |items| => Substitute(items[i], fill)))
    case Str(s) => if s == Sentinel then Str(fill) else v
    case _ => v
  }

  /** One step into a value: a dict key or a list position. */
  datatype PathStep = Key(key: string) | Index(index: nat)

  /** The part of `v` reached by following `path`, if it exists. */
  function At(v: Value, path: seq<PathStep>): Option<Value>
    decreases |path|
  {
    if path == [] then Some(v)
    else
      match path[0]
      case Key(k) => if v.Dict? && k in v.fields then At(v.fields[k], path[1..]) else None
      case Index(i) => if v.List? && i < |v.items| then At(v.items[i], path[1..]) else None
  }

  /** Neither a list nor a dict. */
  predicate IsLeaf(v: Value) {
    !v.Dict? && !v.List?
  }

  /**
    Substitution keeps every position: the same paths exist before and
    after, at each of them the substituted value is the substitution of the
    original, a sentinel leaf has become `fill`, and every other leaf is
    untouched.
   */
  lemma {:induction false} SubstituteAt(v: Value, fill: string, path: seq<PathStep>)
    ensures At(Substitute(v, fill), path).Some? <==> At(v, path).Some?
    ensures At(v, path).Some? ==> At(Substitute(v, fill), path) == Some(Substitute(At(v, path).value, fill))
    ensures At(v, path) == Some(Str(Sentinel)) ==> At(Substitute(v, fill), path) == Some(Str(fill))
    ensures At(v, path).Some? && IsLeaf(At(v, path).value) && At(v, path).value != Str(Sentinel) ==>
      At(Substitute(v, fill), path) == At(v, path)
    decreases |path|
  {
    if path != [] {
      match path[0]
      case Key(k) =>
        if v.Dict? && k in v.fields {
          SubstituteAt(v.fields[k], fill, path[1..]);
        }
      case Index(i) =>
        if v.List? && i < |v.items| {
          SubstituteAt(v.items[i], fill, path[1..]);
        }
    }
  }

  /** Some dict value or list item, at any depth, is the sentinel text. */
  predicate HasSentinel(v: Value) {
    match v
    case Str(s) => s == Sentinel
    case List(items) => exists i :: 0 <= i < |items| && HasSentinel(items[i])
    case Dict(fields) => exists k :: k in fields && HasSentinel(fields[k])
    case _ => false
  }

  /** A payload without the sentinel passes through unchanged. */
  lemma {:induction false} SubstituteWithoutSentinel(v: Value, fill: string)
    requires !HasSentinel(v)
    ensures Substitute(v, fill) == v
  {
    match v
    case Dict(fields) =>
      forall k | k in fields
        ensures Substitute(fields[k], fill) == fields[k]
      {
        SubstituteWithoutSentinel(fields[k], fill);
      }
      assert Substitute(v, fill).fields == fields;
    case List(items) =>
      forall i | 0 <= i < |items|
        ensures Substitute(items[i], fill) == items[i]
      {
        SubstituteWithoutSentinel(items[i], fill);
      }
      assert Substitute(v, fill).items == items;
    case _ =>
  }

  /** Unless the fill is itself the sentinel, no sentinel survives substitution. */
  lemma {:induction false} SubstituteLeavesNoSentinel(v: Value, fill: string)
    requires fill != Sentinel
    ensures !HasSentinel(Substitute(v, fill))
  {
    match v
    case Dict(fields) =>
      forall k | k in fields
        ensures !HasSentinel(Substitute(fields[k], fill))
      {
        SubstituteLeavesNoSentinel(fields[k], fill);
      }
    case List(items) =>
      forall i | 0 <= i < |items|
        ensures !HasSentinel(Substitute(items[i], fill))
      {
        SubstituteLeavesNoSentinel(items[i], fill);
      }
    case _ =>
  }

  // ---------------------------------------------------------------------
  // Classification of what an apprentice returns (slide_creator.py lines 252-256)
  // ---------------------------------------------------------------------

  const FailureMarkers: seq<string> := ["error:", "\U{274C}"]
  const SuccessMarkers: seq<string> := ["success:", "\U{2705}", "--- presentation saved"]

  predicate StartsWithAny(s: string, markers: seq<string>) {
    exists k :: 0 <= k < |markers| && StartsWith(s, markers[k])
  }

  datatype Verdict = MarkedFailure | MarkedSuccess | Unmarked

  /** A text whose stripped, lower-cased form starts with a marker is marked; nothing else is. */
  function Classify(output: Value): Verdict {
    if output.Str? then
      var key := Lower(Strip(output.s));
      if StartsWithAny(key, FailureMarkers) then MarkedFailure
      else if StartsWithAny(key, SuccessMarkers) then MarkedSuccess
      else Unmarked
    else Unmarked
  }

  /** Only a failure marker fails a step; marked success and no marker both succeed. */
  function Succeeds(output: Value): (ok: bool)
    ensures !output.Str? ==> ok
  {
    Classify(output) != MarkedFailure
  }

  /**
    A text that, after leading whitespace, starts with `error:` in any
    letter case fails, whatever follows.
   */
  lemma ErrorPrefixFails(lead: string, word: string, rest: string)
    requires forall k :: 0 <= k < |lead| ==> IsSpace(lead[k])
    requires |word| == 6 && Lower(word) == "error:"
    ensures !Succeeds(Str(lead + word + rest))
  {
    StripKeepsCore(lead, word, rest);
    var key := Lower(Strip(lead + word + rest));
    assert key[..6] == Lower(word);
    assert StartsWith(key, FailureMarkers[0]);
  }

  // ---------------------------------------------------------------------
  // Running one apprentice (slide_creator.py lines 244-263)
  // ---------------------------------------------------------------------

  /** What `run` can raise, by the `except` clause that catches it. */
  datatype Failure = ImportFailure | AttributeFailure(detail: string) | OtherFailure(detail: string)

  /** One call of an apprentice's `run`: a returned value or a raised exception. */
  datatype RunResult = Returned(value: Value) | Raised(failure: Failure)

  /** An importable apprentice module; `run` is `None` when it has no `run` function. */
  datatype Apprentice = Apprentice(run: Option<Value -> RunResult>)

  type Registry = map<string, Apprentice>

  function ImportErrorMessage(name: string): string {
    "Error: Could not find module '" + name + "'."
  }

  function MissingRunMessage(name: string, detail: string): string {
    "Critical error: Module '" + name + "' does not have a 'run' function. " + detail
  }

  function CrashMessage(name: string, detail: string): string {
    "Critical error executing " + name + ": " + detail
  }

  /** Import, run and classify, with every exception turned into `(message, False)`. */
  function Invoke(name: string, payload: Value, registry: Registry): (Value, bool) {
    if name !in registry then (Str(ImportErrorMessage(name)), false)
    else
      match registry[name].run
      case None => (Str(MissingRunMessage(name, "module '" + name + "' has no attribute 'run'")), false)
      case Some(run) =>
        match run(payload)
        case Returned(output) => (output, Succeeds(output))
        case Raised(ImportFailure) => (Str(ImportErrorMessage(name)), false)
        case Raised(AttributeFailure(detail)) => (Str(MissingRunMessage(name, detail)), false)
        case Raised(OtherFailure(detail)) => (Str(CrashMessage(name, detail)), false)
  }

  /** The apprentice that was imported and the payload it was given. */
  datatype Invocation = Invocation(apprentice: string, payload: Value)

  /**
    What `execute_step` returns: `(output, success)` together with the
    invocation it attempted, if any; or an exception that escapes it.
   */
  datatype StepResult =
    | Finished(output: Value, success: bool, invoked: Option<Invocation>)
    | Uncaught

  /** `execute_step` on a step dict, as a value (slide_creator.py lines 224-263). */
  function StepOutcome(entries: map<string, Value>, previous: Value, registry: Registry, repr: Value -> string): StepResult {
    var name := Get(entries, "apprentice");
    var payload := Get(entries, "payload");
    if Truthy(name) && !name.Str? then Uncaught
    else if !Truthy(name) || payload == Null then Finished(Null, false, None)
    else
      var moduleName := Normalize(name.s);
      var actual := Substitute(payload, Fill(previous, repr));
      var (output, ok) := Invoke(moduleName, actual, registry);
      Finished(output, ok, Some(Invocation(moduleName, actual)))
  }

  /**
    The outcomes of one step.
    - A truthy "apprentice" that is not a text makes `startswith` raise
      outside the `try`, so the exception escapes.
    - A missing or empty name, or a `None` payload, gives `(None, False)`
      and nothing is imported.
    - Otherwise the normalised module is invoked with the substituted
      payload, and the step succeeds exactly when the module exists, has a
      `run`, and `run` returns a value without a failure marker; the output
      is then what `run` returned. Anything raised gives a text message.
   */
  lemma StepOutcomeCases(entries: map<string, Value>, previous: Value, registry: Registry, repr: Value -> string)
    ensures var r := StepOutcome(entries, previous, registry, repr);
      var name := Get(entries, "apprentice");
      var payload := Get(entries, "payload");
      && (r.Uncaught? <==> Truthy(name) && !name.Str?)
      && (r.Finished? && r.invoked.None? <==> !Truthy(name) || (name.Str? && payload == Null))
      && (r.Finished? && r.invoked.None? ==> r.output == Null && !r.success)
      && (r.Finished? && r.invoked.Some? ==>
           var moduleName := Normalize(name.s);
           && r.invoked.value == Invocation(moduleName, Substitute(payload, Fill(previous, repr)))
           && StartsWith(moduleName, Prefix)
           && (r.success <==>
                moduleName in registry && registry[moduleName].run.Some? &&
                registry[moduleName].run.value(r.invoked.value.payload) == Returned(r.output) &&
                Classify(r.output) != MarkedFailure)
           && (!r.success ==> r.output.Str? || Classify(r.output) == MarkedFailure))
  {
  }

  /** A step dict from the plan; `execute_step` rewrites its "apprentice" entry in place. */
  class StepDict {
    var entries: map<string, Value>

    constructor (entries: map<string, Value>)
      ensures this.entries == entries
    {
      this.entries := entries;
    }
  }

  /** `execute_step(step, previous_output)` (slide_creator.py lines 222-263). */
  method ExecuteStep(step: StepDict, previous: Value, registry: Registry, repr: Value -> string)
    returns (r: StepResult)
    modifies step
    ensures step.entries == NormalizeEntries(old(step.entries))
    ensures r == StepOutcome(old(step.entries), previous, registry, repr)
  {
    var name := Get(step.entries, "apprentice");
    var payload := Get(step.entries, "payload");
    if Truthy(name) {
      if !name.Str? {
        return Uncaught;
      }
      if !StartsWith(name.s, Prefix) {
        name := Str(Prefix + name.s);
        step.entries := step.entries["apprentice" := name];
      }
    }
    if !Truthy(name) || payload == Null {
      return Finished(Null, false, None);
    }
    payload := Substitute(payload, Fill(previous, repr));
    ghost var expected := Invoke(name.s, payload, registry);
    assert StepOutcome(old(step.entries), previous, registry, repr) ==
      Finished(expected.0, expected.1, Some(Invocation(name.s, payload)));
    var output, ok;
    if name.s !in registry {
      output, ok := Str(ImportErrorMessage(name.s)), false;
    } else if registry[name.s].run.None? {
      output, ok := Str(MissingRunMessage(name.s, "module '" + name.s + "' has no attribute 'run'")), false;
    } else {
      var result := registry[name.s].run.value(payload);
      match result
      case Returned(value) =>
        output, ok := value, Classify(value) != MarkedFailure;
      case Raised(ImportFailure) =>
        output, ok := Str(ImportErrorMessage(name.s)), false;
      case Raised(AttributeFailure(detail)) =>
        output, ok := Str(MissingRunMessage(name.s, detail)), false;
      case Raised(OtherFailure(detail)) =>
        output, ok := Str(CrashMessage(name.s, detail)), false;
    }
    assert (output, ok) == expected;
    r := Finished(output, ok, Some(Invocation(name.s, payload)));
  }

  // ---------------------------------------------------------------------
  // `handle_request` (slide_creator.py lines 268-290)
  // ---------------------------------------------------------------------

  /** How a request ends; step numbers are 1-based as in the messages printed. */
  datatype Status =
    | NoPlanGenerated
    | Completed
    | Failed(step: nat, output: Value)
    | Aborted(step: nat)

  /** One call of `execute_step`: its step number, the previous output it got, its result. */
  datatype Call = Call(step: nat, input: Value, result: StepResult)

  /** `execute_step` as a function of the step dict and the previous output. */
  type Executor = (map<string, Value>, Value) -> StepResult

  /** The Foreman's executor for a given registry. */
  function Execute(registry: Registry, repr: Value -> string): Executor {
    (entries, previous) => StepOutcome(entries, previous, registry, repr)
  }

  /** The steps from index `i` on, run with `previous` as the last output. */
  function RunSteps(steps: seq<map<string, Value>>, i: nat, previous: Value, exec: Executor): (Status, seq<Call>)
    requires i <= |steps|
    decreases |steps| - i
  {
    if i == |steps| then (Completed, [])
    else
      var result := exec(steps[i], previous);
      var call := Call(i + 1, previous, result);
      match result
      case Uncaught => (Aborted(i + 1), [call])
      case Finished(output, ok, _) =>
        if !ok then (Failed(i + 1, output), [call])
        else
          var rest := RunSteps(steps, i + 1, output, exec);
          (rest.0, [call] + rest.1)
  }

  /** A finished, successful call. */
  predicate Succeeded(c: Call) {
    c.result.Finished? && c.result.success
  }

  /**
    The steps run strictly in plan order, each on its own dict and on the
    output of the step just before it (the first on `previous`), and only
    the last call may have failed.
   */
  lemma {:induction false} RunStepsOrder(steps: seq<map<string, Value>>, i: nat, previous: Value, exec: Executor)
    requires i <= |steps|
    ensures var calls := RunSteps(steps, i, previous, exec).1;
      && |calls| <= |steps| - i
      && (i < |steps| ==> |calls| >= 1 && calls[0].input == previous)
      && (forall k :: 0 <= k < |calls| ==>
            calls[k].step == i + k + 1 &&
            calls[k].result == exec(steps[i + k], calls[k].input))
      && (forall k :: 0 <= k < |calls| - 1 ==>
            Succeeded(calls[k]) && calls[k + 1].input == calls[k].result.output)
    decreases |steps| - i
  {
    if i < |steps| {
      var result := exec(steps[i], previous);
      var call := Call(i + 1, previous, result);
      if result.Finished? && result.success {
        var rest := RunSteps(steps, i + 1, result.output, exec).1;
        var calls := RunSteps(steps, i, previous, exec).1;
        assert calls == [call] + rest;
        RunStepsOrder(steps, i + 1, result.output, exec);
        forall k | 0 <= k < |calls|
          ensures calls[k].step == i + k + 1
          ensures calls[k].result == exec(steps[i + k], calls[k].input)
        {
          if k > 0 { assert calls[k] == rest[k - 1]; }
        }
        forall k | 0 <= k < |calls| - 1
          ensures Succeeded(calls[k]) && calls[k + 1].input == calls[k].result.output
        {
          if k > 0 { assert calls[k] == rest[k - 1] && calls[k + 1] == rest[k]; }
        }
      }
    }
  }

  /**
    The run completes exactly when every step ran and succeeded; it fails at
    step n exactly when step n is the last call and returned `False`; it
    aborts when the last call raised out of `execute_step`.
   */
  lemma {:induction false} RunStepsStatus(steps: seq<map<string, Value>>, i: nat, previous: Value, exec: Executor)
    requires i <= |steps|
    ensures var (status, calls) := RunSteps(steps, i, previous, exec);
      && (status == Completed <==> |calls| == |steps| - i && forall k :: 0 <= k < |calls| ==> Succeeded(calls[k]))
      && (status.Failed? ==>
            |calls| >= 1 && status.step == i + |calls| &&
            calls[|calls| - 1].result.Finished? && !calls[|calls| - 1].result.success &&
            calls[|calls| - 1].result.output == status.output)
      && (status.Aborted? ==> |calls| >= 1 && status.step == i + |calls| && calls[|calls| - 1].result.Uncaught?)
      && !status.NoPlanGenerated?
    decreases |steps| - i
  {
    if i < |steps| {
      var result := exec(steps[i], previous);
      var call := Call(i + 1, previous, result);
      if result.Finished? && result.success {
        var rest := RunSteps(steps, i + 1, result.output, exec);
        var calls := [call] + rest.1;
        assert RunSteps(steps, i, previous, exec) == (rest.0, calls);
        RunStepsStatus(steps, i + 1, result.output, exec);
        AllSucceededPrepend(call, rest.1);
        if |rest.1| >= 1 {
          assert calls[|calls| - 1] == rest.1[|rest.1| - 1];
        }
      } else {
        assert RunSteps(steps, i, previous, exec).1 == [call];
        assert !Succeeded([call][0]);
      }
    }
  }

  /** A successful call in front of some calls: all succeed exactly when all of those do. */
  lemma AllSucceededPrepend(call: Call, calls: seq<Call>)
    requires Succeeded(call)
    ensures (forall k :: 0 <= k < |[call] + calls| ==> Succeeded(([call] + calls)[k])) <==>
      (forall k :: 0 <= k < |calls| ==> Succeeded(calls[k]))
  {
    var all := [call] + calls;
    assert forall k :: 0 <= k < |calls| ==> all[k + 1] == calls[k];
    if forall k :: 0 <= k < |calls| ==> Succeeded(calls[k]) {
      forall k | 0 <= k < |all| ensures Succeeded(all[k]) {
        if k > 0 { assert all[k] == calls[k - 1]; }
      }
    }
  }

  /** The dicts of a validated plan. */
  function StepEntries(items: seq<Value>): (r: seq<map<string, Value>>)
    ensures |r| == |items|
    ensures forall k :: 0 <= k < |items| && items[k].Dict? ==> r[k] == items[k].fields
  {
    seq(|items|, k requires 0 <= k < |items| => if items[k].Dict? then items[k].fields else map[])
  }

  /** `handle_request` as a value: no plan (or an empty one) runs nothing. */
  function Request(reply: Option<string>, parse: string -> Option<Value>, registry: Registry, repr: Value -> string): (r: (Status, seq<Call>))
    ensures r.0 == NoPlanGenerated <==> r.1 == []
  {
    match CallLlm(reply, parse)
    case NoPlan(_, _, _) => (NoPlanGenerated, [])
    case Plan(items) =>
      if items == [] then (NoPlanGenerated, [])
      else
        RunStepsOrder(StepEntries(items), 0, Null, Execute(registry, repr));
        RunStepsStatus(StepEntries(items), 0, Null, Execute(registry, repr));
        RunSteps(StepEntries(items), 0, Null, Execute(registry, repr))
  }

  /** One step of `RunSteps`, with the calls made so far in front. */
  lemma RunStepsOneStep(steps: seq<map<string, Value>>, i: nat, previous: Value, exec: Executor, done: seq<Call>)
    requires i < |steps|
    ensures var result := exec(steps[i], previous);
      var call := Call(i + 1, previous, result);
      var here := RunSteps(steps, i, previous, exec);
      && (result.Uncaught? ==> here == (Aborted(i + 1), [call]))
      && (result.Finished? && !result.success ==> here == (Failed(i + 1, result.output), [call]))
      && (result.Finished? && result.success ==>
            var rest := RunSteps(steps, i + 1, result.output, exec);
            (here.0, done + here.1) == (rest.0, (done + [call]) + rest.1))
  {
    var result := exec(steps[i], previous);
    if result.Finished? && result.success {
      var call := Call(i + 1, previous, result);
      var rest := RunSteps(steps, i + 1, result.output, exec);
      assert done + ([call] + rest.1) == (done + [call]) + rest.1;
    }
  }

  /** One fresh, distinct step dict per validated plan item. */
  method NewStepDicts(items: seq<Value>) returns (dicts: seq<StepDict>)
    requires forall k :: 0 <= k < |items| ==> items[k].Dict?
    ensures |dicts| == |items|
    ensures forall j :: 0 <= j < |dicts| ==> fresh(dicts[j])
    ensures forall j :: 0 <= j < |dicts| ==> dicts[j].entries == StepEntries(items)[j]
    ensures forall j, j' :: 0 <= j < j' < |dicts| ==> dicts[j] != dicts[j']
  {
    dicts := [];
    for k := 0 to |items|
      invariant |dicts| == k
      invariant forall j :: 0 <= j < k ==> fresh(dicts[j])
      invariant forall j :: 0 <= j < k ==> dicts[j].entries == StepEntries(items)[j]
      invariant forall j, j' :: 0 <= j < j' < k ==> dicts[j] != dicts[j']
    {
      var d := new StepDict(items[k].fields);
      dicts := dicts + [d];
    }
  }

  /**
    The loop of `handle_request` (slide_creator.py lines 275-285): runs the step dicts in
    order, threading the previous output, and stops at the first failure.
   */
  method RunPlan(dicts: seq<StepDict>, ghost spec: seq<map<string, Value>>, registry: Registry, repr: Value -> string)
    returns (status: Status, calls: seq<Call>)
    requires |dicts| == |spec|
    requires forall j :: 0 <= j < |dicts| ==> dicts[j].entries == spec[j]
    requires forall j, j' :: 0 <= j < j' < |dicts| ==> dicts[j] != dicts[j']
    modifies set j | 0 <= j < |dicts| :: dicts[j]
    ensures (status, calls) == RunSteps(spec, 0, Null, Execute(registry, repr))
    ensures forall j :: 0 <= j < |dicts| ==>
      dicts[j].entries == if j < |calls| then NormalizeEntries(spec[j]) else spec[j]
  {
    ghost var exec := Execute(registry, repr);
    var previousOutput := Null;
    var allSucceeded := true;
    calls := [];
    status := Completed;
    assert RunSteps(spec, 0, Null, exec).1 == calls + RunSteps(spec, 0, Null, exec).1;
    var i := 0;
    while i < |dicts|
      invariant 0 <= i <= |dicts| && allSucceeded && status == Completed
      invariant |calls| == i
      invariant forall j :: i <= j < |dicts| ==> dicts[j].entries == spec[j]
      invariant forall j :: 0 <= j < i ==> dicts[j].entries == NormalizeEntries(spec[j])
      invariant RunSteps(spec, 0, Null, exec) ==
        (RunSteps(spec, i, previousOutput, exec).0, calls + RunSteps(spec, i, previousOutput, exec).1)
    {
      var result := ExecuteStep(dicts[i], previousOutput, registry, repr);
      assert result == exec(spec[i], previousOutput);
      RunStepsOneStep(spec, i, previousOutput, exec, calls);
      calls := calls + [Call(i + 1, previousOutput, result)];
      if result.Uncaught? {
        return Aborted(i + 1), calls;
      }
      if !result.success {
        status := Failed(i + 1, result.output);
        allSucceeded := false;
        break;
      }
      previousOutput := result.output;
      i := i + 1;
    }
    if allSucceeded {
      status := Completed;
      assert RunSteps(spec, i, previousOutput, exec) == (Completed, []);
      assert calls + [] == calls;
    }
  }

  /**
    `handle_request(user_request)` with the model's reply given: plans, then
    runs the steps in order on fresh step dicts.
   */
  method HandleRequest(reply: Option<string>, parse: string -> Option<Value>, registry: Registry, repr: Value -> string)
    returns (status: Status, calls: seq<Call>)
    ensures (status, calls) == Request(reply, parse, registry, repr)
  {
    var plan := CallLlm(reply, parse);
    if plan.NoPlan? || plan.steps == [] {
      return NoPlanGenerated, [];
    }
    var items := plan.steps;
    assert forall k :: 0 <= k < |items| ==> IsStep(items[k]);
    var dicts := NewStepDicts(items);
    status, calls := RunPlan(dicts, StepEntries(items), registry, repr);
  }
}
