/**
  The Foreman's planning half (`call_llm`): the language model's reply is cut
  down to the JSON array it contains, repaired by a fixed chain of textual
  rewrites, brace-balanced, parsed, and accepted only when every element is a
  step naming an apprentice and carrying a payload.

  The model call itself and `json.loads` are not modelled: the reply arrives
  as a parameter (`None` when the call raised) and the parser is a parameter
  `parse` returning `None` where `json.loads` raises.
 */
module PlanCompiler {
  import opened Wrappers
  import opened Text
  import opened Json

  /** The needle of a `str.replace` call; `replace` with an empty needle is never used. */
  type Pattern = s: string | s != [] witness "?"

  /** A `str.replace(pattern, replacement)` call, as a pair. */
  type Rewrite = (Pattern, string)

  /** The rewrites applied, in this order, to the text between the brackets. */
  const BracketedRewrites: seq<Rewrite> := [
    ("```json", ""), ("```", ""), ("**", ""),
    (": True", ": true"), (", True", ", true"),
    (": False", ": false"), (", False", ", false"),
    (": None", ": null"), (", None", ", null"),
    (" null", " null"),
    ("'", "\"")
  ]

  /** The smaller set of rewrites applied when no bracket pair is found. */
  const FallbackRewrites: seq<Rewrite> := [
    (": True", ": true"), (": False", ": false"),
    (": None", ": null"), (" null", " null"),
    ("'", "\"")
  ]

  /** `s.replace(p1, r1).replace(p2, r2)...`, leftmost rule first. */
  function ApplyRewrites(s: string, rules: seq<Rewrite>): string
  {
    if rules == [] then s
    else
      var last := rules[|rules| - 1];
      Replace(ApplyRewrites(s, rules[..|rules| - 1]), last.0, last.1)
  }

  /** The `" null"` to `" null"` rewrite, in both chains, changes nothing. */
  lemma NullRewriteChangesNothing(s: string)
    ensures Replace(s, BracketedRewrites[9].0, BracketedRewrites[9].1) == s
    ensures Replace(s, FallbackRewrites[3].0, FallbackRewrites[3].1) == s
  {
    ReplaceSelf(s, " null");
  }

  /**
    The rewrite chains end by turning every single quote into a double quote,
    so nothing they produce contains a single quote.
   */
  lemma RewritesRemoveSingleQuotes(s: string, rules: seq<Rewrite>)
    requires rules != [] && rules[|rules| - 1] == ("'", "\"")
    ensures '\'' !in ApplyRewrites(s, rules)
  {
    ReplaceCharRemoves(ApplyRewrites(s, rules[..|rules| - 1]), '\'', "\"");
  }

  /**
    The slice from the first `[` to the last `]`, both included, when the
    last `]` comes after the first `[`; otherwise `None`.
   */
  function BracketSpan(t: string): (r: Option<string>)
    ensures r.Some? <==> exists i, j :: 0 <= i < j < |t| && t[i] == '[' && t[j] == ']'
  {
    var start := Find(t, '[');
    var end := RFind(t, ']');
    if start != -1 && end != -1 && end > start then Some(t[start..end + 1]) else None
  }

  /** The span runs exactly from the first `[` to the last `]`. */
  lemma BracketSpanFirstToLast(t: string, i: nat, j: nat)
    requires i < j < |t| && t[i] == '[' && t[j] == ']'
    requires forall k :: 0 <= k < i ==> t[k] != '['
    requires forall k :: j < k < |t| ==> t[k] != ']'
    ensures BracketSpan(t) == Some(t[i..j + 1])
  {
    var start := Find(t, '[');
    var end := RFind(t, ']');
    assert '[' in t && ']' in t;
  }

  /** Appending `n` closing braces adds `n` to their count and none to the opening ones. */
  lemma AppendClosers(s: string, n: nat)
    ensures StartsWith(s + Repeat('}', n), s)
    ensures Count(s + Repeat('}', n), '{') == Count(s, '{')
    ensures Count(s + Repeat('}', n), '}') == Count(s, '}') + n
  {
    var tail := Repeat('}', n);
    CountAppend(s, tail, '{');
    CountAppend(s, tail, '}');
    CountRepeat('}', '{', n);
    CountRepeat('}', '}', n);
    assert (s + tail)[..|s|] == s;
  }

  /**
    slide_creator.py lines 196-199: when `{` outnumbers `}`, exactly the missing `}` are
    appended; the input is always a prefix of the result and only `}` is added.
   */
  function BalanceBraces(s: string): (r: string)
    ensures StartsWith(r, s) && forall k :: |s| <= k < |r| ==> r[k] == '}'
    ensures Count(r, '{') == Count(s, '{')
    ensures Count(r, '}') == if Count(s, '{') > Count(s, '}') then Count(s, '{') else Count(s, '}')
    ensures Count(s, '{') <= Count(s, '}') ==> r == s
  {
    var opens := Count(s, '{');
    var closes := Count(s, '}');
    if opens > closes then
      AppendClosers(s, opens - closes);
      s + Repeat('}', opens - closes)
    else s
  }

  /** The text after the bracket slice and the rewrites (slide_creator.py lines 163-190), before balancing. */
  function RepairedText(raw: string): string {
    var trimmed := Strip(raw);
    match BracketSpan(trimmed)
    case Some(span) => Strip(ApplyRewrites(span, BracketedRewrites))
    case None => ApplyRewrites(trimmed, FallbackRewrites)
  }

  /** The text handed to `json.loads` (slide_creator.py lines 163-199). */
  function CleanPlanText(raw: string): string {
    BalanceBraces(RepairedText(raw))
  }

  /** Whichever branch was taken, the cleaned plan text holds no single quote. */
  lemma CleanPlanTextHasNoSingleQuote(raw: string)
    ensures '\'' !in CleanPlanText(raw)
  {
    var trimmed := Strip(raw);
    var span := BracketSpan(trimmed);
    if span.Some? {
      RewritesRemoveSingleQuotes(span.value, BracketedRewrites);
      StripKeepsAbsent(ApplyRewrites(span.value, BracketedRewrites), '\'');
    } else {
      RewritesRemoveSingleQuotes(trimmed, FallbackRewrites);
    }
    assert '\'' !in RepairedText(raw);
  }

  /** In the bracketed branch the working text starts as exactly the bracket slice. */
  lemma CleanPlanTextUsesSpan(raw: string, i: nat, j: nat)
    requires var t := Strip(raw); i < j < |t| && t[i] == '[' && t[j] == ']'
    requires forall k :: 0 <= k < i ==> Strip(raw)[k] != '['
    requires forall k :: j < k < |Strip(raw)| ==> Strip(raw)[k] != ']'
    ensures RepairedText(raw) == Strip(ApplyRewrites(Strip(raw)[i..j + 1], BracketedRewrites))
  {
    BracketSpanFirstToLast(Strip(raw), i, j);
  }

  // ---------------------------------------------------------------------
  // Repairing a repaired text again, and texts the repair damages
  // ---------------------------------------------------------------------

  /** Some character of `pattern` is missing from `s`, so `pattern` cannot occur there. */
  predicate LacksSomeChar(s: string, pattern: string) {
    exists k :: 0 <= k < |pattern| && pattern[k] !in s
  }

  /** Rules from index `n` on whose patterns cannot occur leave the text as the first `n` rules made it. */
  lemma {:induction false} ApplyRewritesKeeps(s: string, rules: seq<Rewrite>, n: nat)
    requires n <= |rules|
    requires forall k :: n <= k < |rules| ==> LacksSomeChar(ApplyRewrites(s, rules[..n]), rules[k].0)
    ensures ApplyRewrites(s, rules) == ApplyRewrites(s, rules[..n])
    decreases |rules|
  {
    if |rules| == n {
      assert rules[..n] == rules;
    } else {
      var init := rules[..|rules| - 1];
      assert init[..n] == rules[..n];
      ApplyRewritesKeeps(s, init, n);
      var last := rules[|rules| - 1];
      var j :| 0 <= j < |last.0| && last.0[j] !in ApplyRewrites(s, rules[..n]);
      ReplaceMissingChar(ApplyRewrites(s, init), last.0, last.1, j);
    }
  }

  /** A reply that runs from a `[` to a `]` is its own stripped text and its own bracket span. */
  lemma WholeSpan(t: string)
    requires |t| >= 2 && t[0] == '[' && t[|t| - 1] == ']'
    ensures Strip(t) == t && BracketSpan(t) == Some(t)
  {
    StripNoOp(t);
    BracketSpanFirstToLast(t, 0, |t| - 1);
    assert t[0..|t|] == t;
  }

  /** Such a reply is repaired as a whole by the bracketed chain. */
  lemma RepairWholeSpan(t: string)
    requires |t| >= 2 && t[0] == '[' && t[|t| - 1] == ']'
    ensures RepairedText(t) == Strip(ApplyRewrites(t, BracketedRewrites))
  {
    WholeSpan(t);
  }

  /** The JSON list `["`**``"]`: a valid plan reply text whose one string holds backquotes and stars. */
  const StrayFence: string := "[\"`**``\"]"

  /** What one repair makes of `StrayFence`: the stars are gone and three backquotes meet. */
  const FenceAfterStars: string := "[\"```\"]"

  /** `StrayFence` holds no three backquotes in a row. */
  lemma StrayFenceHasNoFence()
    ensures Replace(StrayFence, "```", "") == StrayFence
  {
    var x := StrayFence;
    forall i | 0 <= i <= |x| - 3
      ensures !StartsWith(x[i..], "```")
    {
      assert x[i..][..3] == [x[i], x[i + 1], x[i + 2]];
    }
    ReplaceAbsent(x, "```", "");
  }

  /** Removing the stars of `StrayFence`, written out character by character, joins its backquotes. */
  lemma StrayFenceLosesStarsAt(tail: string)
    requires tail == "``\"]"
    ensures Replace(['['] + (['"'] + (['`'] + ("**" + tail))), "**", "") == ['['] + (['"'] + (['`'] + tail))
  {
    ReplaceMissingChar(tail, "**", "", 0);
    ReplaceHit("**", tail, "");
    ReplaceSkip('`', "**" + tail, "**", "");
    ReplaceSkip('"', ['`'] + ("**" + tail), "**", "");
    ReplaceSkip('[', ['"'] + (['`'] + ("**" + tail)), "**", "");
  }

  /** `StrayFence` and `FenceAfterStars` written out character by character. */
  lemma StrayFenceSpelled(tail: string)
    requires tail == "``\"]"
    ensures ['['] + (['"'] + (['`'] + ("**" + tail))) == StrayFence
    ensures ['['] + (['"'] + (['`'] + tail)) == FenceAfterStars
  {
  }

  /** Removing the stars of `StrayFence` joins its backquotes. */
  lemma StrayFenceLosesStars()
    ensures Replace(StrayFence, "**", "") == FenceAfterStars
  {
    var tail := "``\"]";
    StrayFenceLosesStarsAt(tail);
    StrayFenceSpelled(tail);
  }

  /** The fence rule, which runs before the star rule, removes the joined backquotes. */
  lemma FenceAfterStarsLosesFence()
    ensures Replace(FenceAfterStars, "```", "") == "[\"\"]"
  {
    assert Replace("\"]", "```", "") == "\"]";
    assert Replace("```\"]", "```", "") == "\"]";
    assert Replace("\"```\"]", "```", "") == "\"\"]";
  }

  /** The first three rules (fences, then stars) turn `StrayFence` into `FenceAfterStars`. */
  lemma StrayFenceFirstRules(rules: seq<Rewrite>)
    requires rules == BracketedRewrites
    ensures ApplyRewrites(StrayFence, rules[..3]) == FenceAfterStars
  {
    var x := StrayFence;
    ReplaceMissingChar(x, rules[0].0, rules[0].1, 3);
    assert rules[..1][..0] == rules[..0];
    assert ApplyRewrites(x, rules[..1]) == x;
    StrayFenceHasNoFence();
    assert rules[..2][..1] == rules[..1];
    assert ApplyRewrites(x, rules[..2]) == x;
    StrayFenceLosesStars();
    assert rules[..3][..2] == rules[..2];
  }

  /** The whole bracketed chain turns `StrayFence` into `FenceAfterStars`. */
  lemma StrayFenceRewritten(rules: seq<Rewrite>)
    requires rules == BracketedRewrites
    ensures ApplyRewrites(StrayFence, rules) == FenceAfterStars
  {
    StrayFenceFirstRules(rules);
    assert forall k :: 3 <= k < |rules| ==> rules[k].0[0] !in FenceAfterStars;
    ApplyRewritesKeeps(StrayFence, rules, 3);
  }

  /** One repair of `StrayFence` only removes its stars. */
  lemma StrayFenceFirstRepair()
    ensures CleanPlanText(StrayFence) == FenceAfterStars
  {
    RepairWholeSpan(StrayFence);
    StrayFenceRewritten(BracketedRewrites);
    StripNoOp(FenceAfterStars);
    assert '{' !in FenceAfterStars;
  }

  /** The first two rules (the fences) turn `FenceAfterStars` into `[""]`. */
  lemma FenceAfterStarsFirstRules(rules: seq<Rewrite>)
    requires rules == BracketedRewrites
    ensures ApplyRewrites(FenceAfterStars, rules[..2]) == "[\"\"]"
  {
    var y := FenceAfterStars;
    ReplaceMissingChar(y, rules[0].0, rules[0].1, 3);
    assert rules[..1][..0] == rules[..0];
    assert ApplyRewrites(y, rules[..1]) == y;
    FenceAfterStarsLosesFence();
    assert rules[..2][..1] == rules[..1];
  }

  /** The whole bracketed chain turns `FenceAfterStars` into `[""]`, a list holding the empty text. */
  lemma FenceAfterStarsRewritten(rules: seq<Rewrite>)
    requires rules == BracketedRewrites
    ensures ApplyRewrites(FenceAfterStars, rules) == "[\"\"]"
  {
    FenceAfterStarsFirstRules(rules);
    assert forall k :: 2 <= k < |rules| ==> rules[k].0[0] !in "[\"\"]";
    ApplyRewritesKeeps(FenceAfterStars, rules, 2);
  }

  /** A second repair of `StrayFence` removes the backquotes the first one joined. */
  lemma StrayFenceSecondRepair()
    ensures CleanPlanText(FenceAfterStars) == "[\"\"]"
  {
    RepairWholeSpan(FenceAfterStars);
    FenceAfterStarsRewritten(BracketedRewrites);
    StripNoOp("[\"\"]");
    assert '{' !in "[\"\"]";
  }

  /**
    The repair is not idempotent: because the fence rule runs before the
    star rule, repairing the valid list `["`**``"]` once leaves a fence
    that a second repair removes, changing the text the list holds.
   */
  lemma RepairNotIdempotent()
    ensures CleanPlanText(StrayFence) == FenceAfterStars
    ensures CleanPlanText(CleanPlanText(StrayFence)) == "[\"\"]"
    ensures CleanPlanText(CleanPlanText(StrayFence)) != CleanPlanText(StrayFence)
  {
    StrayFenceFirstRepair();
    StrayFenceSecondRepair();
  }

  /** The JSON list `["it's"]`: a valid plan reply holding an apostrophe. */
  const Apostrophe: string := "[\"it's\"]"

  /** The quote rule on `Apostrophe`, written out character by character. */
  lemma ApostropheQuotedAt(tail: string)
    requires tail == "s\"]"
    ensures Replace(['['] + (['"'] + (['i'] + (['t'] + ("'" + tail)))), "'", "\"") ==
      ['['] + (['"'] + (['i'] + (['t'] + ("\"" + tail))))
  {
    ReplaceMissingChar(tail, "'", "\"", 0);
    ReplaceHit("'", tail, "\"");
    ReplaceSkip('t', "'" + tail, "'", "\"");
    ReplaceSkip('i', ['t'] + ("'" + tail), "'", "\"");
    ReplaceSkip('"', ['i'] + (['t'] + ("'" + tail)), "'", "\"");
    ReplaceSkip('[', ['"'] + (['i'] + (['t'] + ("'" + tail))), "'", "\"");
  }

  /** `Apostrophe` and its repair written out character by character. */
  lemma ApostropheSpelled(tail: string)
    requires tail == "s\"]"
    ensures ['['] + (['"'] + (['i'] + (['t'] + ("'" + tail)))) == Apostrophe
    ensures ['['] + (['"'] + (['i'] + (['t'] + ("\"" + tail)))) == "[\"it\"s\"]"
  {
  }

  /** The quote rule turns the apostrophe into a double quote. */
  lemma ApostropheQuoted()
    ensures Replace(Apostrophe, "'", "\"") == "[\"it\"s\"]"
  {
    var tail := "s\"]";
    ApostropheQuotedAt(tail);
    ApostropheSpelled(tail);
  }

  /** Of the bracketed chain, only the last rule touches `Apostrophe`. */
  lemma ApostropheRewritten(rules: seq<Rewrite>)
    requires rules == BracketedRewrites
    ensures ApplyRewrites(Apostrophe, rules) == "[\"it\"s\"]"
  {
    var init := rules[..|rules| - 1];
    assert forall k :: 0 <= k < |init| ==> init[k].0[0] !in Apostrophe;
    ApplyRewritesKeeps(Apostrophe, init, 0);
    ApostropheQuoted();
  }

  /**
    The repair damages a text holding an apostrophe: the valid list
    `["it's"]` becomes `["it"s"]`, which is no longer valid JSON.
   */
  lemma RepairBreaksApostrophe()
    ensures CleanPlanText(Apostrophe) == "[\"it\"s\"]"
  {
    RepairWholeSpan(Apostrophe);
    ApostropheRewritten(BracketedRewrites);
    StripNoOp("[\"it\"s\"]");
    assert '{' !in "[\"it\"s\"]";
  }

  /** A plan step as the validation sees it: a dict with both keys. */
  predicate IsStep(item: Value) {
    item.Dict? && "apprentice" in item.fields && "payload" in item.fields
  }

  /** The index of the first element that is not a step, or -1 (the loop at 207-209). */
  function FirstInvalid(items: seq<Value>): (r: int)
    ensures -1 <= r < |items|
    ensures r == -1 <==> forall k :: 0 <= k < |items| ==> IsStep(items[k])
    ensures 0 <= r ==> !IsStep(items[r]) && forall k :: 0 <= k < r ==> IsStep(items[k])
  {
    if items == [] then -1
    else if !IsStep(items[0]) then 0
    else
      var k := FirstInvalid(items[1..]);
      if k == -1 then -1 else k + 1
  }

  /** Why no plan came out. */
  datatype PlanError =
    | LlmCallFailed
    | NotJson
    | NotAList
    | ItemNotDict(index: nat)
    | ItemMissingKey(index: nat)

  /** `call_llm`'s result: the steps, or `None` with the texts it prints for diagnosis. */
  datatype PlanOutcome =
    | Plan(steps: seq<Value>)
    | NoPlan(reason: PlanError, raw: string, attempted: string)

  /**
    `call_llm` after the model call: a plan comes out exactly when the
    cleaned text parses to a list whose every element is a step, and then it
    is that list.
   */
  function CallLlm(reply: Option<string>, parse: string -> Option<Value>): (r: PlanOutcome)
    ensures r.Plan? <==>
      reply.Some? && parse(CleanPlanText(reply.value)).Some? &&
      parse(CleanPlanText(reply.value)).value.List? &&
      forall k :: 0 <= k < |parse(CleanPlanText(reply.value)).value.items| ==>
        IsStep(parse(CleanPlanText(reply.value)).value.items[k])
    ensures r.Plan? ==> parse(CleanPlanText(reply.value)) == Some(List(r.steps))
  {
    match reply
    case None => NoPlan(LlmCallFailed, "", "")
    case Some(text) =>
      var raw := Strip(text);
      var cleaned := CleanPlanText(text);
      match parse(cleaned)
      case None => NoPlan(NotJson, raw, cleaned)
      case Some(parsed) =>
        if !parsed.List? then NoPlan(NotAList, raw, cleaned)
        else
          var k := FirstInvalid(parsed.items);
          if k == -1 then Plan(parsed.items)
          else if !parsed.items[k].Dict? then NoPlan(ItemNotDict(k), raw, cleaned)
          else NoPlan(ItemMissingKey(k), raw, cleaned)
  }
}
