# Aura orchestration core in Dafny

This project models the core of the Aura orchestration engine, the "Foreman".
A user's request goes to a language model. The model's reply is repaired into
a JSON plan: an ordered list of steps, each naming an *apprentice* (a tool
module) and carrying a *payload*. The steps then run one after another. The
previous step's output is threaded into the next step's payload through the
reserved text `"$PREV_OUTPUT"`, and the run stops at the first step whose
result is classified as a failure. Two pieces of the apprentices are modelled
with it: the PDF reader's page selection (`parse_page_range`) and the
spreadsheet reader's row handling (`_get_sheet`, `_read_as_list`,
`_read_as_dict`).

Modules, one per file:

- `Wrappers` (`wrappers.dfy`): `Option`.
- `Text` (`text.dfy`): the Python `str` operations the code relies on:
  `strip`, `find`, `rfind`, `count`, `replace`, `split` and `lower`.
- `PyInt` (`py_int.dfy`): `int(text)` in base 10 and `str(n)` for integers.
- `Json` (`json.dfy`): the values a plan, a payload or a tool result can hold,
  plus Python truthiness, `dict.get` and `str()`.
- `PlanCompiler` (`plan_compiler.dfy`): `call_llm`'s cleanup chain, brace
  balancing and plan validation.
- `StepExecutor` (`step_executor.dfy`): `execute_step` (with
  `replace_prev_output`) and `handle_request`. `execute_step` rewrites the
  step dict's `"apprentice"` entry in place, so a step dict is a class
  (`StepDict`) and `ExecuteStep` is a method that modifies it.
  `handle_request`'s loop is a method (`RunPlan`) proved against the
  functional specification `RunSteps`.
- `PageRange` (`page_range.dfy`): `parse_page_range`. The loop over the
  comma-separated parts (`CollectIndices`), its per-part body with the inner
  range loop (`AddPart`), and the final sort (`SortIndices`) are methods. They
  are proved against the functions `PartPages`, `Collect` and `Selection`.
- `SheetReader` (`sheet_reader.dfy`): the row readers as methods with loops,
  proved against `KeepNonEmpty` and `Records`.

Parameters stand in for everything outside the core:

- The language model's reply is an `Option<string>`; `None` means the call
  raised.
- `json.loads` is a function `parse` that returns `None` where it would raise.
- Dynamic import is a `Registry` that maps module names to apprentices. An
  apprentice's `run` is a function from payload to a value returned or a
  failure raised.
- Python's `str()` of floats, lists and dicts is a function `repr`.
- A worksheet is its rows of cell values; an empty cell is `None`.

Behaviour of the code worth noting:

- **Step key.** A step names its tool under `"apprentice"`.
- **Literal rewrites.** Python literals are rewritten by plain substring
  replacement of `": True"`, `", True"` and so on. There is no word-boundary
  check, so `": Truest"` becomes `": truest"`.
- **Fallback branch.** When no `[`…`]` pair exists, the whole stripped reply
  is rewritten, with only five rewrites (`": True"`, `": False"`,
  `": None"`, the no-op `" null"` and the quote rewrite). There is no fence,
  emphasis or `", True"` rewrite and no final strip.
- **Repair is not idempotent.** The fence rules run before the `**` rule,
  so removing stars can join backquotes into a fence that only a second
  repair removes. The valid list ``["`**``"]`` is repaired to ``["```"]``,
  and repairing that again gives `[""]`.
- **Apostrophes.** Every `'` becomes `"`, even inside a JSON string. The
  valid list `["it's"]` is repaired to `["it"s"]`, which `json.loads`
  rejects, so the plan is lost.
- **Error results.** An unknown module, a missing `run` or a crash in `run`
  becomes an error text with `success == False`. That step then fails like any
  other.
- **Bad apprentice value.** A truthy `"apprentice"` value that is not a text
  makes `startswith` raise outside the `try`. The exception escapes
  `execute_step` and `handle_request`; this is modelled as `Aborted`.
- **Payload type.** Any payload other than `None` is accepted, whatever its
  type.
- **Empty plan.** An empty plan list passes validation. `handle_request` then
  halts as if no plan had been produced.

## Model

| member | source | states |
|---|---|---|
| Text.Strip | src/aura_core/apprentices/pdf_reader.py:19 | `strip()` never lengthens its input, and the result is empty or neither starts nor ends with whitespace |
| Text.StripTrims | src/aura_core/apprentices/pdf_reader.py:19 | `strip()` only cuts whitespace: its result is a contiguous slice of the input with only whitespace before and after it |
| Text.TrimmedAtFront | src/aura_core/apprentices/pdf_reader.py:19 | leading whitespace in front of a trimmed slice keeps it trimmed |
| Text.TrimmedAtBack | src/aura_core/apprentices/pdf_reader.py:19 | trailing whitespace after a trimmed slice keeps it trimmed |
| Text.StripKeepsCore | src/aura_core/apprentices/slide_creator.py:252 | after leading whitespace, a text that starts and ends with non-space survives `strip()` at the head of the result |
| Text.StripKeepsAbsent | src/aura_core/apprentices/slide_creator.py:183 | `strip()` introduces no character that was not in its input |
| Text.Find | src/aura_core/apprentices/slide_creator.py:166 | `find` gives -1 exactly when the character is absent, else the index of its first occurrence |
| Text.RFind | src/aura_core/apprentices/slide_creator.py:167 | `rfind` gives -1 exactly when the character is absent, else the index of its last occurrence |
| Text.Count | src/aura_core/apprentices/slide_creator.py:196-197 | `count` is at most the length and is zero exactly when the character is absent |
| Text.CountAppend | src/aura_core/apprentices/slide_creator.py:199 | counting over a concatenation adds the counts of the parts |
| Text.CountRepeat | src/aura_core/apprentices/slide_creator.py:199 | `c * n` holds `n` copies of `c` and no other character |
| Text.Repeat | src/aura_core/apprentices/slide_creator.py:199 | `c * n` is `n` characters long and every one of them is `c` |
| Text.ReplaceAbsent | src/aura_core/apprentices/slide_creator.py:173-179 | `replace` with a pattern that does not occur returns the text unchanged |
| Text.ReplaceSelf | src/aura_core/apprentices/slide_creator.py:178 | replacing a pattern by itself returns the text unchanged |
| Text.ReplaceCharRemoves | src/aura_core/apprentices/slide_creator.py:179 | after replacing every `c` by a text without `c`, no `c` remains |
| Text.ReplaceKeepsAbsent | src/aura_core/apprentices/slide_creator.py:173-179 | `replace` introduces no character that is absent from both the text and the replacement |
| Text.ReplaceMissingChar | src/aura_core/apprentices/slide_creator.py:173-179 | `replace` with a pattern holding a character the text lacks returns the text unchanged |
| Text.ReplaceSkip | src/aura_core/apprentices/slide_creator.py:173-179 | where the pattern does not start, `replace` keeps the first character and carries on with the rest |
| Text.ReplaceHit | src/aura_core/apprentices/slide_creator.py:173-179 | where the pattern starts, `replace` emits the replacement and carries on after the pattern |
| Text.Replace | src/aura_core/apprentices/slide_creator.py:173-179 | `replace` leaves a text without the pattern unchanged (`ReplaceAbsent`), changes nothing when the pattern is its own replacement (`ReplaceSelf`), removes every replaced character (`ReplaceCharRemoves`) and introduces no character absent from the text and the replacement (`ReplaceKeepsAbsent`) |
| Text.Split | src/aura_core/apprentices/pdf_reader.py:17 | `split(sep)` yields one piece more than there are separators, and no piece holds the separator |
| Text.SplitJoin | src/aura_core/apprentices/pdf_reader.py:17 | joining the pieces with the separator gives back the text |
| Text.SplitNoSeparator | src/aura_core/apprentices/pdf_reader.py:21 | a text without the separator splits into itself alone |
| Text.SplitFirst | src/aura_core/apprentices/pdf_reader.py:21 | the text before the first separator is the first piece, and the rest is split on its own |
| Text.Lower | src/aura_core/apprentices/slide_creator.py:252 | `lower()` keeps the length and leaves no upper-case ASCII letter; a character changes exactly when it was an upper-case ASCII letter, and then becomes its lower-case letter |
| Text.LowerIdempotent | src/aura_core/apprentices/slide_creator.py:252 | lower-casing twice is lower-casing once |
| PyInt.ParseInt | src/aura_core/apprentices/pdf_reader.py:22-23 | `int()` rejects an empty or all-whitespace text |
| PyInt.NatToDecimal | src/aura_core/apprentices/slide_creator.py:239 | `str(n)` for `n >= 0` is well-formed digits with value `n` and no leading zero |
| PyInt.IntRoundTrip | src/aura_core/apprentices/pdf_reader.py:22-23 | `int(str(n)) == n` for every integer |
| PyInt.IntToDecimal | src/aura_core/apprentices/slide_creator.py:239 | `str(n)` of any integer; `int()` reads it back as `n` (`IntRoundTrip`) |
| Json.PyStrIntRoundTrip | src/aura_core/apprentices/slide_creator.py:239 | `str()` of an integer value parses back to that integer |
| Json.Truthy | src/aura_core/apprentices/slide_creator.py:228 | Python truthiness: `None`, `False`, zero and empty texts, lists and dicts are false, everything else true; it decides the name test (slide_creator.py line 234) and the all-pages case (pdf_reader.py line 12) |
| Json.PyStr | src/aura_core/apprentices/slide_creator.py:239 | `str(v)` of a value, as used for `$PREV_OUTPUT` and for the page input (pdf_reader.py line 17); an integer's text reads back as that integer (`PyStrIntRoundTrip`) |
| PlanCompiler.NullRewriteChangesNothing | src/aura_core/apprentices/slide_creator.py:178 | the `" null"` to `" null"` rewrite changes no text, in both branches |
| PlanCompiler.RewritesRemoveSingleQuotes | src/aura_core/apprentices/slide_creator.py:179 | a rewrite chain ending in the quote rewrite leaves no single quote |
| PlanCompiler.ApplyRewrites | src/aura_core/apprentices/slide_creator.py:173-190 | the chained `replace` calls applied in order; both chains leave no single quote (`RewritesRemoveSingleQuotes`) |
| PlanCompiler.BracketSpan | src/aura_core/apprentices/slide_creator.py:166-170 | a span exists exactly when some `[` comes before some `]` |
| PlanCompiler.BracketSpanFirstToLast | src/aura_core/apprentices/slide_creator.py:166-170 | the span runs exactly from the first `[` to the last `]`, both included |
| PlanCompiler.AppendClosers | src/aura_core/apprentices/slide_creator.py:199 | appending `n` closing braces keeps the text as a prefix, adds `n` to the `}` count and none to the `{` count |
| PlanCompiler.BalanceBraces | src/aura_core/apprentices/slide_creator.py:196-199 | the input is a prefix of the result and only `}` is added. When `{` outnumbers `}` the counts become equal; otherwise the text is unchanged |
| PlanCompiler.CleanPlanTextHasNoSingleQuote | src/aura_core/apprentices/slide_creator.py:172-199 | in either branch, the text given to `json.loads` holds no single quote |
| PlanCompiler.CleanPlanTextUsesSpan | src/aura_core/apprentices/slide_creator.py:163-170 | in the bracketed branch, the rewrites start from exactly the slice from the first `[` to the last `]` of the stripped reply |
| PlanCompiler.ApplyRewritesKeeps | src/aura_core/apprentices/slide_creator.py:173-179 | rules whose patterns cannot occur in the text leave it as the earlier rules made it |
| PlanCompiler.RepairNotIdempotent | src/aura_core/apprentices/slide_creator.py:173-174 | repairing ``["`**``"]`` gives ``["```"]``, and repairing that again gives `[""]`: a second repair changes a repaired text |
| PlanCompiler.RepairBreaksApostrophe | src/aura_core/apprentices/slide_creator.py:179 | the valid list `["it's"]` is repaired to `["it"s"]`, which is not valid JSON |
| PlanCompiler.RepairedText | src/aura_core/apprentices/slide_creator.py:163-190 | the bracket slice, stripped and rewritten, or the whole stripped reply rewritten by the fallback chain; in the bracket case it is built from the span (`CleanPlanTextUsesSpan`) |
| PlanCompiler.CleanPlanText | src/aura_core/apprentices/slide_creator.py:163-199 | the repaired text with closing braces appended; it holds no single quote whichever branch was taken (`CleanPlanTextHasNoSingleQuote`) |
| PlanCompiler.FirstInvalid | src/aura_core/apprentices/slide_creator.py:207-209 | -1 exactly when every item is a dict with both keys; otherwise the first item that is not |
| PlanCompiler.CallLlm | src/aura_core/apprentices/slide_creator.py:163-217 | a plan comes out exactly when the model answered and the cleaned text parses to a list of dicts that each hold `"apprentice"` and `"payload"`; the plan is that list |
| StepExecutor.Normalize | src/aura_core/apprentices/slide_creator.py:228-230 | a non-empty name without the package prefix becomes the prefix followed by the name; a prefixed name is unchanged; only the empty name maps to empty |
| StepExecutor.NormalizeIdempotent | src/aura_core/apprentices/slide_creator.py:228-230 | normalising twice is normalising once |
| StepExecutor.NormalizeShortName | src/aura_core/apprentices/slide_creator.py:228-230 | a short name and its fully qualified form resolve to the same module |
| StepExecutor.NormalizeEntries | src/aura_core/apprentices/slide_creator.py:228-231 | only a text `"apprentice"` entry of the step dict changes, to its normalised name; every other key and value is kept |
| StepExecutor.Substitute | src/aura_core/apprentices/slide_creator.py:236-240 | substitution keeps dicts as dicts with the same keys, and lists as lists of the same length |
| StepExecutor.SubstituteAt | src/aura_core/apprentices/slide_creator.py:236-240 | every path exists before exactly when after. A sentinel at any depth becomes the fill, and every other leaf is unchanged |
| StepExecutor.SubstituteWithoutSentinel | src/aura_core/apprentices/slide_creator.py:236-240 | a payload without the sentinel passes through unchanged |
| StepExecutor.SubstituteLeavesNoSentinel | src/aura_core/apprentices/slide_creator.py:239 | unless the fill is itself the sentinel, no sentinel survives |
| StepExecutor.Fill | src/aura_core/apprentices/slide_creator.py:239 | what replaces `"$PREV_OUTPUT"`: `""` for no output, else `str(output)`; every sentinel position receives it (`SubstituteAt`) |
| StepExecutor.Succeeds | src/aura_core/apprentices/slide_creator.py:252-256 | a returned value that is not a text always succeeds |
| StepExecutor.ErrorPrefixFails | src/aura_core/apprentices/slide_creator.py:252-253 | a text that starts with `error:`, in any letter case and after any leading whitespace, fails |
| StepExecutor.Classify | src/aura_core/apprentices/slide_creator.py:252-256 | the verdict on a returned value, from its stripped lower-cased text; a value succeeds unless marked as a failure (`Succeeds`), and an `error:` text fails (`ErrorPrefixFails`) |
| StepExecutor.StepOutcomeCases | src/aura_core/apprentices/slide_creator.py:222-263 | escape, no invocation, or invocation of the normalised module with the substituted payload. Success holds exactly when the module exists, has `run`, and `run` returns a value without a failure marker |
| StepExecutor.Invoke | src/aura_core/apprentices/slide_creator.py:244-263 | import, run and classify, every exception becoming `(message, False)`; its cases are stated by `StepOutcomeCases` |
| StepExecutor.StepOutcome | src/aura_core/apprentices/slide_creator.py:224-263 | `execute_step` as a value: an escaping exception, `(None, False)` without invocation, or the invocation of the normalised module with the substituted payload (`StepOutcomeCases`) |
| StepExecutor.ExecuteStep | src/aura_core/apprentices/slide_creator.py:222-263 | the result is the specified step outcome, and the step dict's `"apprentice"` entry is normalised in place |
| StepExecutor.RunStepsOrder | src/aura_core/apprentices/slide_creator.py:273-285 | steps run in plan order, step 1 on `None` and each later one on its predecessor's output; only the last call may have failed |
| StepExecutor.RunStepsStatus | src/aura_core/apprentices/slide_creator.py:274-290 | completed exactly when every step ran and succeeded; a failure names the last call, which returned `False` with that output |
| StepExecutor.AllSucceededPrepend | src/aura_core/apprentices/slide_creator.py:281-287 | with a successful call in front, all calls succeed exactly when the rest do |
| StepExecutor.RunSteps | src/aura_core/apprentices/slide_creator.py:275-285 | the steps run in order, each fed the previous output, stopping at the first failure or escape (`RunStepsOrder`, `RunStepsStatus`) |
| StepExecutor.RunStepsOneStep | src/aura_core/apprentices/slide_creator.py:278-285 | one loop iteration: abort, stop on failure, or continue with the output, with the calls so far in front |
| StepExecutor.Request | src/aura_core/apprentices/slide_creator.py:268-271 | no plan, or an empty one, is reported exactly when no step ran |
| StepExecutor.NewStepDicts | src/aura_core/apprentices/slide_creator.py:275 | one fresh, distinct step dict per plan item, holding that item's entries |
| StepExecutor.RunPlan | src/aura_core/apprentices/slide_creator.py:273-290 | the loop's status and calls are exactly `RunSteps` from step 1 with no previous output; every step dict that was run has its `"apprentice"` entry normalised in place, and the others are untouched |
| StepExecutor.HandleRequest | src/aura_core/apprentices/slide_creator.py:268-290 | planning, then running, gives exactly the specified status and calls |
| PageRange.AllPages | src/aura_core/apprentices/pdf_reader.py:12-13 | `range(max_pages)`: indices 0 to `max_pages - 1` in order |
| PageRange.Interval | src/aura_core/apprentices/pdf_reader.py:26-27 | holds exactly the integers from `lo` to `hi` |
| PageRange.RangePages | src/aura_core/apprentices/pdf_reader.py:22-27 | a range contributes exactly `start-1 .. end-1` when `1 <= start <= end <= max_pages`, else nothing |
| PageRange.SinglePage | src/aura_core/apprentices/pdf_reader.py:29-31 | a number contributes exactly `n-1` when `1 <= n <= max_pages`, else nothing |
| PageRange.PartPages | src/aura_core/apprentices/pdf_reader.py:19-31 | a well-formed part contributes only indices inside the document |
| PageRange.CollectMeaning | src/aura_core/apprentices/pdf_reader.py:16-34 | collection fails exactly when some part is malformed, and otherwise gives the union of the parts' pages |
| PageRange.CollectStep | src/aura_core/apprentices/pdf_reader.py:18-31 | one more well-formed part adds exactly its pages |
| PageRange.CollectMalformed | src/aura_core/apprentices/pdf_reader.py:32-34 | one malformed part discards everything collected |
| PageRange.Collect | src/aura_core/apprentices/pdf_reader.py:15-34 | the union of the parts' pages, or nothing once a part is malformed (`CollectMeaning`) |
| PageRange.IntervalExtend | src/aura_core/apprentices/pdf_reader.py:26-27 | an interval grows by its upper end |
| PageRange.DigitsHaveNoDash | src/aura_core/apprentices/pdf_reader.py:20 | decimal digits hold no `-` |
| PageRange.DigitsStripped | src/aura_core/apprentices/pdf_reader.py:19 | `strip()` leaves a digit string alone |
| PageRange.DashedDigits | src/aura_core/apprentices/pdf_reader.py:21 | `"a-b"` from digit strings is left alone by `strip()` and splits into `a` and `b` |
| PageRange.NumberPart | src/aura_core/apprentices/pdf_reader.py:28-31 | the part `str(n)` contributes page `n` when inside the document and nothing otherwise |
| PageRange.RangePart | src/aura_core/apprentices/pdf_reader.py:20-27 | the part `str(a)-str(b)` contributes `a-1 .. b-1` when `1 <= a <= b <= max_pages`; a reversed or out-of-bounds range contributes nothing |
| PageRange.NegativeNumberPart | src/aura_core/apprentices/pdf_reader.py:20-22 | a negative number such as `-3` is malformed, because its empty start is not an integer |
| PageRange.BlankPart | src/aura_core/apprentices/pdf_reader.py:29 | an empty or all-whitespace part, as in `"1,,2"`, is malformed |
| PageRange.ManyDashesPart | src/aura_core/apprentices/pdf_reader.py:21 | a part with two or more dashes, as in `"1-2-3"`, is malformed |
| PageRange.AddPart | src/aura_core/apprentices/pdf_reader.py:19-31 | one loop iteration: the indices so far plus the part's pages, or failure on a malformed part; an invalid range adds nothing |
| PageRange.CollectIndices | src/aura_core/apprentices/pdf_reader.py:15-34 | the loop's indices are exactly the collection of all parts, all inside the document |
| PageRange.SortIndices | src/aura_core/apprentices/pdf_reader.py:36 | `sorted(list(indices))` is strictly ascending, holds exactly the indices, and stays inside the document |
| PageRange.ParsePageRange | src/aura_core/apprentices/pdf_reader.py:10-36 | strictly ascending, inside the document, and holding exactly the selected pages; a falsy input or a malformed part gives every page in order |
| PageRange.Selection | src/aura_core/apprentices/pdf_reader.py:12-34 | all pages for a falsy input, else the collected indices or all pages on a malformed part; `ParsePageRange` returns it sorted |
| SheetReader.GetSheet | src/aura_core/apprentices/spreadsheet_reader.py:7-15 | no name gives the active sheet, and a known name gives that sheet; a given name that is not a sheet name is an error |
| SheetReader.KeepNonEmpty | src/aura_core/apprentices/spreadsheet_reader.py:24-28 | filtering never lengthens the rows |
| SheetReader.KeepNonEmptyMembers | src/aura_core/apprentices/spreadsheet_reader.py:26-27 | exactly the rows with a value are kept, unchanged |
| SheetReader.KeepNonEmptyAppend | src/aura_core/apprentices/spreadsheet_reader.py:24-28 | filtering works row by row and so keeps the original order |
| SheetReader.KeepNonEmptyAll | src/aura_core/apprentices/spreadsheet_reader.py:26-27 | rows that all hold a value are returned as they are |
| SheetReader.ReadAsList | src/aura_core/apprentices/spreadsheet_reader.py:17-28 | the list is exactly the non-empty rows in order |
| SheetReader.FirstNonEmpty | src/aura_core/apprentices/spreadsheet_reader.py:43-51 | -1 exactly when no row has a value; otherwise the first such row, all rows before it being empty |
| SheetReader.HeaderText | src/aura_core/apprentices/spreadsheet_reader.py:48 | one header name per cell, with `"None"` for an empty cell |
| SheetReader.ZipColumns | src/aura_core/apprentices/spreadsheet_reader.py:57 | the record's keys are exactly the header names of the first `n` columns |
| SheetReader.ZipColumnsAt | src/aura_core/apprentices/spreadsheet_reader.py:57 | a header name that does not recur further right maps to the value in its own column, so on duplicates the later column wins |
| SheetReader.ZipDistinct | src/aura_core/apprentices/spreadsheet_reader.py:57 | with distinct header names, every column within both widths is kept under its own name |
| SheetReader.Zip | src/aura_core/apprentices/spreadsheet_reader.py:57 | the record's keys are exactly the header names over as many columns as both the header and the row have; a header name maps to its own column unless repeated further right (`ZipColumnsAt`, `ZipDistinct`) |
| SheetReader.DictRows | src/aura_core/apprentices/spreadsheet_reader.py:54-59 | never more records than rows |
| SheetReader.DictRowsStep | src/aura_core/apprentices/spreadsheet_reader.py:54-58 | one more row adds its record exactly when it is non-empty |
| SheetReader.DictRowsAreZippedList | src/aura_core/apprentices/spreadsheet_reader.py:54-59 | the records are the header zipped with exactly the rows `_read_as_list` keeps, in order |
| SheetReader.Records | src/aura_core/apprentices/spreadsheet_reader.py:43-59 | no records when no row has a value, and fewer records than rows |
| SheetReader.RecordsAfterHeader | src/aura_core/apprentices/spreadsheet_reader.py:43-59 | the header is the first non-empty row; the records zip it with the non-empty rows after it, at most one per row after the header |
| SheetReader.ReadAsDict | src/aura_core/apprentices/spreadsheet_reader.py:30-59 | the records returned are exactly the specified records |

## Left out

- The language-model call (`ollama.chat`) is the reply parameter; the system prompt and model options are not modelled.
- `json.loads` is the `parse` parameter. The JSON grammar is not modelled, and neither is the distinction between its exception and `ValueError`: both yield no plan.
- `importlib.import_module` is the `Registry` map. An `ImportError`, `AttributeError` or other exception raised inside `run` is a `Failure` value chosen by the apprentice function.
- Python's `str()` of floats, lists, dicts and spreadsheet values such as dates is the `repr` parameter.
- All `print` and `traceback` output is left out; the diagnostic texts `call_llm` prints are kept in `NoPlan`.
- Text.Lower: lower-cases ASCII letters only. Python's full Unicode case mapping is not modelled, so a non-ASCII marker spelled in another case may be classified differently.
- PyInt.ParseInt: accepts ASCII digits only. Python's `int()` also accepts other Unicode decimal digits.
- PyInt.ParseInt: its contract states only that a blank text is rejected. What it accepts is given by `IntRoundTrip` and the page-range lemmas rather than a full grammar statement.
- The `read_range` argument (`sheet[read_range]`) is left to the spreadsheet library: the readers take the rows they iterate over, whether a range or the whole sheet.
- `_get_sheet`'s error message, which lists the sheet names, is not modelled; the error carries the name asked for.
- The `run` functions of the PDF and spreadsheet readers (file loading, OCR, workbook loading) are not part of this model, and neither are the other apprentices.
- PageRange.SortIndices: Python's `sorted(list(indices))` is modelled by a scan over `0 .. max_pages - 1`, which yields the same list because every collected index lies in that range.
- PageRange.ParsePageRange: for a falsy input and for a malformed part, Python returns a `range` object and the model a sequence; the elements are the same.
- PageRange.AddPart: the body of the loop over parts is a separate method. The inner `for i in range(...)` loop sits inside it, and the `continue` becomes returning the indices unchanged.
- Python dicts keep insertion order; here JSON objects, step dicts and the records of `_read_as_dict` are maps, so key order is not modelled. It matters for `str()` of a dict output substituted for `"$PREV_OUTPUT"` (slide_creator.py line 239), which the `repr` parameter renders, and for the key order of a record (spreadsheet_reader.py line 57).
- Python floats are modelled as `real`: NaN, the infinities and -0.0 cannot be represented, so the truthiness of such values (a NaN is truthy in Python) is not modelled.
- PyInt.ParseInt: Python 3.11 and later, and the 3.7 to 3.10 security releases, refuse by default to convert a text of more than 4300 digits to `int` and raise `ValueError`. The model converts texts of any length. So a page part such as `1-` followed by 5000 nines selects all pages in Python, but the model parses it (pdf_reader.py lines 22, 23 and 29).
- PyInt.IntToDecimal: the same 4300-digit limit applies to `str()` of an integer, and the model has no such limit.
- StepExecutor.Fill: `str(output)` of an integer output of more than 4300 digits raises outside the `try` (slide_creator.py line 239), so Python's `execute_step` lets the exception escape, whereas the model completes the step.
