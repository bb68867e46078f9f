# xueji: a verified model of the tutoring assistant's local logic

The assistant watches a student's desk through a camera and projects hints
onto the page. Two remote vision-model calls do the seeing and the judging:

- a perception agent reports what is on the page;
- a reasoning agent decides what to project.

Everything around those calls runs locally, and that is what this project
models in Dafny:

- the repair and extraction of the JSON object in each model reply;
- the merge of a partial perception update onto a base state;
- the all-or-nothing validation of question bounding boxes, with their pixel
  conversion;
- the reasoning agent's per-question state table;
- the gateway's normalisation of detected answer areas;
- the planners that turn the current report and decision into drawing
  commands, for the current display and for the earlier exercise display;
- the per-cycle commit of report, decision and feedback;
- the API-key mask of the environment check script.

Conventions of the model:

- A model reply is a string input, or `None` when the call raised.
- `json.loads` is the parameter `decode` (`None` for a `JSONDecodeError`).
  `float()` on a string is the parameter `parseFloat`.
- The clock reading is the parameter `now`.
- Decoded JSON is the datatype `JsonValue.Json`. A falsy dict argument
  (`None` or `{}`) is the empty map.
- A Python error that the source's `try` turns into `None` or a fallback is
  an explicit `None`, `Raised` or `RawFrame` result.
- Drawing is a list of `Draw.DrawCmd` values. A frame is its width and
  height.

Modules: `JsonValue`, `Draw`, `QwenClient` (qwen_client.py), `Perception`
(perception_agent.py), `Reasoning` (reasoning_agent.py), `Assistant`
(main.py), `MathDetector` (main_old.py) and `EnvCheck` (test_env.py).

Where the code is imperative, the model keeps its shape:

- Loops become methods proved equal to a specification function. These are
  the perception merge's key loop, the validation loop with its error flag
  and `break`, the parser's append loop, the target search, the sidebar's
  `status_y` updates and the label loop of the earlier display.
- Objects whose fields change become classes: `ReasoningAgent` with its
  state table and `LearningAssistant` with its current report, decision and
  feedback.

## Code and design

Where the behaviour the system is meant to have (cumulative, idempotent
merges; a decision drawn exactly as decided) and the code differ, the model
follows the code:

- **Idempotence needs a proviso.**
  - When the base state is falsy (no feedback yet), the reply's object is
    not merged at all. So it gets no `user_attempt_content` key.
  - Applying the same reply again merges onto that result, which adds an
    empty `user_attempt_content`.
  - `Perception.PerceptionIdempotent` proves idempotence whenever the base
    is non-empty or the update has its own attempts dict.
    `Perception.EmptyBaseNotIdempotent` shows that the proviso is needed.
- **The merge base is the reasoning feedback** (main.py:363-368), not the
  previous report. `Assistant.LearningAssistant.AnalyzeCycle` passes it.
- **The `continue` at qwen_client.py:333-334 is unreachable.** The fallback
  chain always produces a list of two or more (`QwenClient.ChooseBox`), so
  only non-dict entries are skipped. The `>= 4` and `>= 2` branches for
  `bbox_2d` take the same list.
- **A CHECK_ANSWER decision without `is_correct` draws the marker as text.**
  main.py:112 reads the missing value as true and sets the marker
  `__DRAW_CHECKMARK__`. main.py:164 and 179 read it as missing, so the marker
  string itself is drawn in white (`Assistant.CheckmarkSentinelDrawnAsText`).
- **Cleaning is not idempotent.** One pass can leave a new comma before a
  brace (`",,}"` becomes `",}"`), which is why the retry cleans again
  (`QwenClient.CleanJsonStringNotIdempotent`).

## Model

| member | source | states |
|---|---|---|
| JsonValue.Trunc | perception_agent.py:283-286 | `int()` on a float truncates toward zero: the result is the integer part, within one of the value and not beyond it |
| JsonValue.Clamp | qwen_client.py:345-348 | `max(lo, min(v, hi))` is at least `lo`, at most `hi` when `lo <= hi`, the value itself when in range, and the violated bound otherwise |
| JsonValue.ScaleUnit | perception_agent.py:283-286 | a fraction in [0, 1] of a non-negative size truncates to a pixel between 0 and the size |
| JsonValue.ScaleMonotone | perception_agent.py:283-286 | scaling by a non-negative size and truncating keeps the order of two fractions |
| JsonValue.NatToString | main.py:245 | `str(n)` of a natural number is a non-empty run of decimal digits without a leading zero whose decimal value is n |
| QwenClient.SpaceRun | qwen_client.py:63-64 | the `\s*` run at the front of a text: all whitespace, and followed by a non-space or the end |
| QwenClient.DropCommaBefore | qwen_client.py:63 | one `re.sub(r',\s*}', '}', s)` pass never makes the text longer (which characters it removes: `DropCommaBeforeRemovesMatches`) |
| QwenClient.DropCommaBeforeOnlyMatches | qwen_client.py:63-64 | a pass over a text in which `,\s*` followed by the bracket matches at no position returns the text unchanged |
| QwenClient.DropCommaBeforeRemovesMatches | qwen_client.py:63-64 | a pass equals the positional reference `Unmatched`: exactly the comma and the whitespace of each `,\s*` match before the bracket are deleted, and every other character of the input, every other comma and all other whitespace included, is kept in order |
| QwenClient.DropCommaBeforeCommas | qwen_client.py:63-64 | the comma count falls by exactly one per position where `,\s*` followed by the bracket matches |
| QwenClient.DropCommaBeforeNoComma | qwen_client.py:63-64 | a substitution pass leaves a text without commas unchanged |
| QwenClient.DropCommaBeforeCounts | qwen_client.py:63-64 | a pass deletes only commas and whitespace: every other character occurs exactly as often as before, the closing bracket included |
| QwenClient.DropCommaBeforeEnds | qwen_client.py:63-64 | a pass keeps a first and a last character that are not commas |
| QwenClient.CleanJsonString | qwen_client.py:52-65 | `_clean_json_string` never lengthens its input (which characters it removes: `CleanJsonStringRemovesMatches`) |
| QwenClient.CleanJsonStringRemovesMatches | qwen_client.py:52-65 | cleaning equals the `]` reference applied to the `}` reference: the comma and whitespace of each `,\s*}` match go, then those of each `,\s*]` match in what is left; nothing else is removed or moved |
| QwenClient.CleanJsonStringCommas | qwen_client.py:52-65 | cleaning returns the text unchanged when neither `,\s*}` nor `,\s*]` matches anywhere; otherwise the comma count falls by exactly the matches of the `}` pass plus those of the `]` pass on its result |
| QwenClient.CleanJsonStringKeeps | qwen_client.py:52-65 | cleaning leaves comma-free input unchanged; it keeps the count of every character other than comma and whitespace, so the counts of `}` and `]` are kept; it keeps the first and last characters when they are not commas |
| QwenClient.DropCommaBeforeKeepsOrder | qwen_client.py:63-64 | a pass only deletes: its result is a subsequence of its input |
| QwenClient.CleanJsonStringKeepsOrder | qwen_client.py:52-65 | the cleaned text is a subsequence of the input, so the surviving characters keep their order |
| QwenClient.CleanJsonStringNotIdempotent | qwen_client.py:262-270 | cleaning `",,}"` gives `",}"` and cleaning that again gives `"}"`, so the second clean before the retry can change the text |
| QwenClient.FirstIndex | qwen_client.py:257 | the first occurrence of a character: absent exactly when the character is not in the text; otherwise the character is there and not before it |
| QwenClient.LastIndex | qwen_client.py:257 | the last occurrence of a character: absent exactly when the character is not in the text; otherwise the character is there and not after it |
| QwenClient.JsonSpan | qwen_client.py:257-259 | `re.search(r'\{.*\}', s, re.DOTALL)` matches from the first `{` to the last `}`: no `{` before the start and no `}` after the end |
| QwenClient.JsonSpanNone | qwen_client.py:257-259 | the search finds nothing exactly when no `}` follows any `{` |
| QwenClient.ExtractJson | qwen_client.py:250-270 | an empty reply or one without a span gives `None`; otherwise the result is the decoding of the cleaned span when that succeeds, and the decoding of the span cleaned twice when it fails |
| QwenClient.ExtractedTextIsBraced | qwen_client.py:257-265 | the text handed to `json.loads` begins with `{` and ends with `}` |
| QwenClient.Strip | perception_agent.py:179 | `str.strip()` never lengthens the text, leaves no whitespace at either end, and is empty only for an all-whitespace text |
| QwenClient.StripTrims | perception_agent.py:179 | the stripped text is a slice `s[i..j]` of the input with only whitespace before `i` and after `j` |
| QwenClient.NewClient | qwen_client.py:67-86 | the constructor raises exactly when the effective key (argument, else environment) is empty or the placeholder; otherwise the key and URL are the argument when it is a non-empty string and the module value otherwise (Python's `or`), the model name is `qwen-vl-max` when not passed, and the image settings are the module values when `None` |
| QwenClient.ToFloat | qwen_client.py:321-327 | `float(v)` keeps numbers, parses strings, and raises on `None`, lists and dicts |
| QwenClient.SingleValue | qwen_client.py:298-304 | `get_single_value`: the first element of a list, 0.0 for an empty list, the value itself otherwise |
| QwenClient.ChooseBox | qwen_client.py:287-296 | the fallback chain takes `answer_area_bbox` when it is a list of two or more, else such a `bbox_2d`, else the legacy fields; a chosen list always has two or more elements |
| QwenClient.MinReal | qwen_client.py:331-332 | `min(a, b)` is below both and equal to one of them |
| QwenClient.DefaultExtent | qwen_client.py:328-332 | a corner alone gets `x_max = min(x_min + 0.8, 1)` and `y_max = min(y_min + 0.1, 1)` |
| QwenClient.ListCorners | qwen_client.py:320-332 | four elements give the full box, two give the corner with the default extent; the result is `None` exactly when one of the conversions used raises |
| QwenClient.LegacyCorners | qwen_client.py:297-318 | the legacy fields give the full box when both extents are positive and otherwise a corner with the default extent; `None` exactly when a field fails to convert |
| QwenClient.ToPixels | qwen_client.py:336-348 | the clamped corner lies in the frame; width and height are at least 20 and 10; they stay inside the frame where room allows; in-range values pass unchanged |
| QwenClient.QuestionAnchor | qwen_client.py:354-364 | both anchor coordinates are present or both absent; absent unless `question_bbox` lists four or more; otherwise they are the truncated centre of the bottom edge |
| QwenClient.BottomCentre | qwen_client.py:357-364 | for a box inside the unit square the anchor (the truncated centre of the bottom edge) lies inside the frame, and between the truncated left and right edges |
| QwenClient.AnswerStatus | qwen_client.py:367-373 | `answer_status` is always blank, correct or wrong: a known label is kept, anything else becomes blank |
| QwenClient.DictEntries | qwen_client.py:280-282 | the dict entries of the list in order: one per dict element (`CountObjects`), and exactly the dicts the list holds |
| QwenClient.ParseEntry | qwen_client.py:287-386 | an entry fails exactly when a conversion raises; a parsed entry is well formed and has the pixel box, anchor, status and default-filled text fields of its dict |
| QwenClient.ParseProblems | qwen_client.py:279-386 | non-dicts are skipped; the list fails exactly when some dict entry raises; otherwise problem k is `ParseEntry` of the k-th dict entry, one well-formed problem per dict entry |
| QwenClient.PrefixFailure | qwen_client.py:393-397 | one entry that raises makes the whole list fail |
| QwenClient.MathProblemsResult | qwen_client.py:239-397 | an undecodable reply gives `None`; a falsy `found` or non-list `problems` gives not-found with no problems; otherwise the result fails exactly when an entry raises, problem k is `ParseEntry` of the k-th dict entry of `problems`, `found` holds exactly when a problem was parsed, and every problem is well formed |
| QwenClient.ParseMathProblemsResponse | qwen_client.py:239-397 | the early returns and the append loop compute `MathProblemsResult` |
| QwenClient.ParseList | qwen_client.py:279-386 | the loop over `problems` computes `ParseProblems`: dict entries parsed and appended in order, others skipped, a raising conversion ends it |
| QwenClient.ClampUnit | qwen_client.py:466-467 | `max(0.0, min(1.0, v))` lies in [0, 1], is `v` when inside, and is the near bound when outside |
| QwenClient.FingerTip | qwen_client.py:460-475 | no coordinate pair gives no point; a point is clamped into the unit square, and coordinates already inside are kept |
| Perception.Stamped | perception_agent.py:231-233 | a missing `timestamp` is added with the clock reading plus `Z`; all other entries are kept |
| Perception.UpdateDict | perception_agent.py:246-248 | `dict.update`: the argument's keys overwrite and the others stay; an empty list or string changes nothing; `None` when the target is not a dict or the argument is neither a dict nor empty |
| Perception.UpdateDictTwice | perception_agent.py:246-248 | updating twice with the same argument is updating once |
| Perception.BaseAttempts | perception_agent.py:242-243 | the attempts dict merged into is the base's, or `{}` when it has none |
| Perception.Merge | perception_agent.py:236-260 | the keys are the base's plus the update's plus `user_attempt_content`; update keys overwrite, including `questions_on_page`; other base keys survive unchanged; the attempts are the base's updated by the update's; `None` exactly when that update raises |
| Perception.PrepareMerge | perception_agent.py:238-253 | after the copy, the attempts default and update, and the question-list replacement, the state has exactly those keys and values |
| Perception.MergeStates | perception_agent.py:238-260 | the copy, the attempts step and the key loop compute `Merge` |
| Perception.CopyKeys | perception_agent.py:256-258 | the key loop copies every key other than `user_attempt_content` and `questions_on_page` over the prepared state |
| Perception.MergedAttempts | perception_agent.py:242-248 | a question id the update does not mention keeps its old text; an id it mentions takes the new text |
| Perception.MergeIdempotent | perception_agent.py:238-258 | merging the same update onto the merge result gives that result back |
| Perception.BoxCoords | perception_agent.py:271-275 | the four coordinates are read only from a dict whose `bbox` is a list of four or more numbers |
| Perception.PixelBox | perception_agent.py:282-287 | `bbox_pixel` is `[int(x1*w), int(y1*h), int(x2*w), int(y2*h)]`, inside the frame (0 ≤ px ≤ w, 0 ≤ py ≤ h) and ordered (px1 ≤ px2, py1 ≤ py2) |
| Perception.ScaledPair | perception_agent.py:282-287 | two ordered fractions stay ordered and inside the size once scaled and truncated |
| Perception.WithPixelBox | perception_agent.py:282-287 | an accepted question gains `bbox_pixel = [int(x1*w), int(y1*h), int(x2*w), int(y2*h)]` of its `bbox`, which lies in the frame, and keeps every other field |
| Perception.WithPixelBoxTwice | perception_agent.py:282-287 | adding the pixel box again changes nothing |
| Perception.WithPixelBoxes | perception_agent.py:270-287 | every question of the list, in order, with its pixel box |
| Perception.Validated | perception_agent.py:266-299 | with a list of questions, the state is rejected exactly when some question lacks a valid box (four numbers in [0, 1], x1 < x2, y1 < y2); otherwise only the question list changes; a state without such a list passes unchanged |
| Perception.AcceptedQuestionsHavePixelBoxes | perception_agent.py:269-287 | in an accepted state question i is the i-th question of the update with `bbox_pixel` set to `[int(x1*w), int(y1*h), int(x2*w), int(y2*h)]` of its valid box, inside the frame |
| Perception.ValidatedTwice | perception_agent.py:266-299 | validating an accepted state again gives it back unchanged |
| Perception.ValidateQuestions | perception_agent.py:266-299 | the loop with its format-error flag and `break` computes `Validated` |
| Perception.PerceptionResult | perception_agent.py:211-307 | an empty reply or one without a span gives `None`; for an extracted object, with an empty base the result is the validated stamped object, and with a non-empty base it is `None` exactly when the attempts merge raises or a box is bad, and otherwise the validated merge; every result has a timestamp |
| Perception.Update | perception_agent.py:224-233 | the stamped update has a timestamp |
| Perception.PerceptionMergesKeys | perception_agent.py:236-260 | base keys the update does not mention survive; update keys overwrite; the question list comes from the update when it has one, else from the base, both with pixel boxes |
| Perception.PerceptionIdempotent | perception_agent.py:231-301 | at the same clock reading `now`, applying the same reply to the state it produced gives that state again, when the base was non-empty or the update carried an attempts dict |
| Perception.EmptyBaseNotIdempotent | perception_agent.py:236-243 | with an empty base and no attempts in the update, the result has no attempts key and applying the reply again adds `{}` |
| Perception.ParseResponse | perception_agent.py:199-307 | the reply handler computes `PerceptionResult` |
| Reasoning.StatesAfter | reasoning_agent.py:175-179 | each listed question id maps to its new state, every other id keeps its old one, and without an `updated_question_states` dict the table is unchanged |
| Reasoning.Decision | reasoning_agent.py:41-229 | a falsy report or a failed call gives `None`; a result is the reply's extracted object; it is `None` when `updated_question_states` is present but not a dict |
| Reasoning.ReasoningAgent.constructor | reasoning_agent.py:28 | the state table starts empty |
| Reasoning.ReasoningAgent.StateSummary | reasoning_agent.py:189-191 | the summary is the state table itself |
| Reasoning.ReasoningAgent.MakeDecision | reasoning_agent.py:30-187 | returns `Decision`, and the table becomes `StatesAfter` of the old table and the result |
| Reasoning.ReasoningAgent.ApplyUpdates | reasoning_agent.py:178-179 | copying the states one id at a time leaves the table overridden by the updates and otherwise unchanged |
| Assistant.DividerX | main.py:94 | `int(w * 0.9)` is the largest column with ten times it at most nine times the width |
| Assistant.Checkmark | main.py:285-314 | the strokes join at (x + s//3, y), start at (x, y - s//3), end at (x + s, y - s), have thickness 3 and stay in the s-by-s box above and right of the position |
| Assistant.FirstMatch | main.py:126-132 | the search returns the first dict whose `id` equals the target, with only non-matching dicts before it; not found exactly when every element is a non-matching dict; a non-dict before any match raises |
| Assistant.TargetSearch | main.py:127-132 | a list is searched; an empty dict or string finds nothing; a non-empty one raises on `.get`; other values are not iterable and raise |
| Assistant.FindTarget | main.py:126-133 | the loop with `break` computes `TargetSearch` |
| Assistant.BoxAnchor | main.py:134-136 | unpacking `bbox_pixel` succeeds exactly for a list of four whose first and last are integers, and yields those two |
| Assistant.Locate | main.py:126-147 | a raising search gives `None`; no match, or a found question that is empty or has a falsy `bbox_pixel`, gives the centre; a found question with a truthy `bbox_pixel` gives (x1, y2) of it, or `None` when unpacking it raises |
| Assistant.TextLine | main.py:140-141 | text is drawn exactly when the value is a string |
| Assistant.EffectiveContent | main.py:106-120 | for CHECK_ANSWER, a truthy or absent `is_correct` gives the check-mark marker; a falsy one gives a truthy `error_analysis`, else the content |
| Assistant.Content | main.py:122-206 | a falsy content draws nothing; CLEAR_PROJECTION and NO_INTERACTION draw nothing; a hint or check whose target search raises fails |
| Assistant.HintPlacement | main.py:124-147 | a hint is drawn at (x1, y2 + 20) of the found question in the hint colour, size 18, else at (w//2 - 100, h//2) |
| Assistant.CheckmarkPlacement | main.py:159-184 | a truthy `is_correct` draws the size-30 green check-mark at (x1, y2 + 30), or at (w//2 - 15, h//2) when the question is not found |
| Assistant.CheckmarkSentinelDrawnAsText | main.py:111-191 | a CHECK_ANSWER without `is_correct` draws the marker string as white text |
| Assistant.WrongAnswerPlacement | main.py:113-191 | a CHECK_ANSWER with a present falsy `is_correct` draws the truthy `error_analysis`, else the content, as white size-18 text at (x1, y2 + 20) or (w//2 - 100, h//2), and nothing when both are falsy |
| Assistant.OtherDecisionCentred | main.py:200-206 | any other decision with something to show, a hint or check without a target included, draws it as white text at (w//2 - 100, h//2) |
| Assistant.ProjectionContent | main.py:104-206 | the projection branches compute `Content` |
| Assistant.ShortReason | main.py:228 | a reason longer than 20 characters becomes its first 20 plus `...`; a shorter one is kept |
| Assistant.StackedConcat | main.py:209-246 | lines stacked from y followed by lines stacked from below them are stacked from y |
| Assistant.DecisionLines | main.py:216-231 | the decision type line, then the short reason line exactly when the reason is truthy, stacked from y = 30; `None` when one is not a string |
| Assistant.ReportLines | main.py:234-246 | writing or idle, then the seconds line exactly when the seconds are positive, showing `int(t)` and `s`; `None` exactly when the seconds are not a number |
| Assistant.Sidebar | main.py:208-246 | the sidebar lines are stacked every 22 pixels from y = 30 right of the divider; with no decision they are the report lines only; otherwise they are the decision lines followed by the report lines stacked below them, and `None` when either raises |
| Assistant.ProjectionPlan | main.py:76-253 | with no report only the divider at `int(w * 0.9)` is drawn; otherwise the canvas is the divider, the projection content (none without a decision) and the sidebar, and it is the raw frame exactly when the content or the sidebar raises |
| Assistant.ClearDrawsOnlySidebar | main.py:193-199 | CLEAR_PROJECTION and NO_INTERACTION draw the divider and the sidebar only |
| Assistant.SidebarCommands | main.py:208-246 | the `status_y` updates compute `Sidebar` |
| Assistant.DrawProjection | main.py:88-253 | the planner computes `ProjectionPlan` |
| Assistant.BuildFeedback | main.py:383-400 | feedback is built exactly when the decision has a truthy `feedback_to_perception`; `updated_question_states` defaults to `{}`; the feedback carries the decision type and target |
| Assistant.OrEmpty | main.py:363-368 | a missing feedback is passed as the empty dict |
| Assistant.LearningAssistant.constructor | main.py:30-38 | the report, decision and feedback start unset; the reasoning agent starts with an empty table |
| Assistant.LearningAssistant.AnalyzeCycle | main.py:362-409 | perception merges onto the last feedback; the report and decision are overwritten even with `None`; the feedback is replaced only by a newly built one; the state table changes only through a decision |
| MathDetector.Dividers | main_old.py:125-131 | the two grey lines of thickness 2 are at `int(w * 0.1)` and at `w - 1` |
| MathDetector.StatusLabel | main_old.py:189-209 | blank or unknown gives white "请作答", correct gives green "正确", wrong gives white "错误：" plus at most 15 characters of a truthy string reason, else "错误" |
| MathDetector.ProblemLabel | main_old.py:179-216 | a label is size-20 text anchored at x clamped to [0, w-1] and y clamped to [0, h-1], so inside the frame |
| MathDetector.Labels | main_old.py:179-216 | one label per problem, in order, and `None` exactly when some label raises |
| MathDetector.MathProblemsPlan | main_old.py:119-218 | no info, a false `found` or an empty list draw only the two lines; otherwise the result is the two lines followed by `Labels` of the problems, and `None` exactly when a label raises |
| MathDetector.DrawMathProblems | main_old.py:119-218 | the drawing loop computes `MathProblemsPlan` |
| MathDetector.FingerPixel | main_old.py:87-95 | `None` passes through; a point becomes `(int(nx * w), int(ny * h))`, which lies within [0, w] × [0, h] for a point in the unit square |
| MathDetector.FingerPixelInFrame | main_old.py:91-93 | after the gateway's clamp, the finger tip always lands within [0, w] × [0, h] (a coordinate of 1.0 gives w or h itself) |
| MathDetector.IsFingerNearIgnoresMarkRadius | main_old.py:109-117 | a missing finger or mark gives false, and the mark's own radius (its third component) does not affect the test |
| MathDetector.IsFingerNearMatchesDistance | main_old.py:109-117 | the squared test holds exactly when the Euclidean distance is at most the radius |
| MathDetector.SquareMonotone | main_old.py:116-117 | on non-negative reals, `a <= b` exactly when `a*a <= b*b` |
| EnvCheck.Stars | test_env.py:30 | `"*" * n` has length n and only asterisks |
| EnvCheck.MaskKey | test_env.py:30 | the mask has the key's length; a key over 12 characters keeps its first 8 and last 4 with asterisks between; a shorter key is all asterisks |
| EnvCheck.MaskRevealsAtMostTwelve | test_env.py:29-30 | at most 12 characters of the key are shown |
| EnvCheck.CheckEnvironment | test_env.py:28-46 | an empty key is reported as missing; otherwise the mask and length are shown, and the format check holds exactly when the key starts with `sk-` |
| EnvCheck.ExitCode | test_env.py:41-46 | the exit status is 1 exactly for a missing key, else 0 |

## Left out

- Camera capture, the OpenCV window, keys, fullscreen and resizing are left out, because they are I/O and user interface.
- Threads, locks, the `is_analyzing` gate and its race are left out: their point is concurrency. So is the finger-detection thread of the earlier display. An analysis cycle is one sequential call.
- The remote model calls and the prompt texts are left out. This includes the tutoring rules that exist only in the prompts. A reply is an input string; the decision rules are applied remotely and are not invented here.
- `frame_to_base64` (colour conversion, resizing, JPEG, base64) is left out, because it is a foreign library call.
- Font loading and pixel drawing in `put_text` and `cv2.line` are left out: drawing is a list of commands.
- `json.loads`, `float()` on strings and `datetime.now()` are parameters, not models.
- `dotenv` loading and the console output of the check script are left out, as I/O.
- Floating point is modelled as exact reals, with `int()` as truncation: rounding, NaN and infinities are left out. `int(w * 0.9)` and `int(w * 0.1)` are taken as exact.
- The `sqrt` comparison is stated with squares; `MathDetector.IsFingerNearMatchesDistance` ties the two forms together.
- The model has value semantics. `previous.copy()` is shallow, so the in-place `.update` of the attempts dict and the in-place `bbox_pixel` write also change the caller's objects (perception_agent.py:238, 248, 282). That aliasing is not modelled.
- DropCommaBefore: its own contract gives only the length bound. Which characters a pass removes is stated by the lemma `DropCommaBeforeRemovesMatches`, which proves the pass equal to `Unmatched`. That lemma is stated only for a closing character other than a comma; the source uses only `}` and `]`. Keeping it out of the recursive function's contract keeps every caller's proof small.
- CleanJsonString: its own contract gives only the length bound. Which characters it removes is stated by `CleanJsonStringRemovesMatches`; the comma count by `CleanJsonStringCommas`.
- Perception.UpdateDict: a non-empty list of key-value pairs passed to `dict.update` is treated as raising. Python would accept it as pairs.
- Perception.BoxCoords: a `bbox` of non-numbers is treated as rejected. Python raises on the comparison and the `try` gives `None`, which is the same result.
- Assistant.BoxAnchor: a `bbox_pixel` whose first or last element is a float is treated as raising in the arithmetic; Python would draw at float coordinates. The two middle elements are ignored, as in Python.
- Assistant.TextLine: non-string text passed to `put_text` is treated as raising.
- MathDetector.StatusLabel: a truthy `error_reason` that is a list, or a dict with at most 15 keys, goes through the f-string, so Python draws its `repr`. The model treats every truthy non-string reason as raising.
- Assistant.Content: its own contract states the no-draw and failure cases. Placement is stated by `HintPlacement`, `CheckmarkPlacement`, `CheckmarkSentinelDrawnAsText`, `WrongAnswerPlacement` and `OtherDecisionCentred`.
- Python's `is_finger_near_question_mark` is never called by the earlier display. It is modelled as the predicate `MathDetector.IsFingerNear` all the same.
- The assistant's constructor builds a `QwenClient`, so it can raise the missing-key `ValueError` (main.py:488 catches it). `Assistant.LearningAssistant.constructor` cannot fail; the key check is `QwenClient.NewClient`.
