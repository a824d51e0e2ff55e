# IntuitionMath: page state, Taylor plot and chat, in Dafny

IntuitionMath is a calculus tutor. A catalogue of units, chapters and topics sits in a sidebar. A storyline of derivation steps belongs to each topic. There is also a plot of the current function and a chat with a hosted model. This project models the parts of the program that are rules rather than drawing, and proves what those rules promise:

- **The catalogue** (`constants.ts`, module `Catalogue`): the eight units with their chapters and topics, and the step storylines of `TOPIC_CONTENT`. Proved facts about this data:
  - every one of the 38 topic ids appears exactly once;
  - unit ids and chapter ids are distinct;
  - every topic has a content entry, and exactly eight entries are non-empty;
  - step ids never repeat within a storyline.
- **The page of `App.tsx`** (module `Navigation`):
  - the initial state;
  - the active-unit fallback;
  - the topic jump, which picks the unit listing the topic;
  - the effect run after a topic change, which applies a per-topic plot configuration, keeps the zoom, and resets the step only when the storyline is non-empty;
  - the current-step lookup with its placeholder;
  - every control of the page, as events;
  - an invariant kept by every sequence of events.
- **The storyline panel** (`components/DerivationPanel.tsx`, module `Derivation`): the step list fallback, which card is highlighted, what each card shows, and what a card click or prerequisite click reports back.
- **The plot panel's computations** (`components/VisualPanel.tsx`, module `Visual`):
  - the memoised Taylor coefficient loop, as a `method` proved against a recursive specification;
  - the Taylor polynomial, proved equal to its Horner form;
  - the order clamp and the x0 guard;
  - which control is usable on which topic;
  - the Riemann partition loop for the basic integral.
  - mathjs is the partial oracle `MathLib` (parse, compile, evaluate, derivative, each returning `Option`). Numbers are exact reals.
- **The chat panel** (`components/AIChatPanel.tsx`, module `AiChat`): a `class` with the three state cells.
  - The send handler and its streaming loop are methods.
  - The stream is an input: the chunks it yields and whether it threw. The clock readings are parameters.
- **The single-file version in `index.tsx`** (module `IndexApp`), kept apart from the other version because it differs:
  - its own five-topic registry, with each step's optional partial plot hint;
  - the topic-reset effect;
  - the step click that merges the hint into the plot;
  - the current-step lookup, which falls back to the first step;
  - its tutor chat, a `class` whose send appends the user message and exactly one reply.

Shared shapes are in `Types` (`types.ts`); `Wrappers` holds `Option`; `Js` holds the ECMAScript built-ins used (`find`, `some`, `trim`).

Where the code and the documentation of the program disagree, the model follows the code, with one exception:

- **Topic ids (the intended ids, not the code).** The enumeration in `types.ts:16-42` lacks 13 ids that `constants.ts` and `App.tsx` use, such as `MVT_ROLLE` (`App.tsx:63`). `Types.Topic` holds the 38 ids of the catalogue as 38 distinct values. This is what the catalogue intends, not what the code as written does; "## Left out" says what the code does instead.
- **The step id after switching to a topic without a storyline.** `App.tsx:34-37` keeps the previous topic's step id, so the header falls back to the placeholder. `Navigation.StaleStepExample` shows this from the initial page.
- **How topic changes are modelled.** A React state change and the effect that depends on it are modelled as one transition. Setting a cell to the value it already holds is modelled as no transition, since the effect does not run.
- **Where `index.tsx` stops.** The file ends at line 343, inside the sidebar markup. Its topic buttons are taken to call `setActiveTopic` and its step buttons `handleStepClick`.

## Model

| member | source | states |
|---|---|---|
| Js.Find | App.tsx:25 | `find` returns the first element satisfying the test, and nothing exactly when no element does |
| Js.TrimEmptyIffBlank | components/AIChatPanel.tsx:25 | the trimmed input is empty exactly when every character is ECMAScript whitespace or a line terminator |
| Catalogue.UnitIdsDistinct | constants.ts:11-184 | the unit ids are u1..u8 in order and pairwise distinct |
| Catalogue.ChapterIdsDistinct | constants.ts:11-184 | chapter ids are pairwise distinct across all units |
| Catalogue.EveryTopicListedOnce | constants.ts:11-184 | every one of the 38 topic ids is listed in the catalogue, and no id is listed twice |
| Catalogue.HomeUnique | constants.ts:11-184 | when no topic id repeats, a topic lies in at most one chapter of at most one unit, so the topic jump's search is unambiguous |
| Catalogue.UnitHasIffListed | App.tsx:28 | the nested `some` over chapters and topics holds exactly when the topic is in the unit's flattened topic list |
| Catalogue.ContentLookup | constants.ts:186-286 | every topic has an entry in `TOPIC_CONTENT`, and it is that topic's storyline |
| Catalogue.ContentStoryline | constants.ts:186-286 | a topic's list is non-empty exactly when the topic is one of the eight with a storyline; all others map to `[]` |
| Catalogue.StorylineStepIdsDistinct | constants.ts:188-281 | step ids do not repeat within any of the eight storylines |
| Catalogue.ContentCoversTopics | constants.ts:186-286 | every topic has an entry, and the step ids of every entry are distinct |
| Derivation.StepsOf | components/DerivationPanel.tsx:14 | the content map's list for the topic, and the empty list when there is no entry |
| Derivation.CatalogueStepsOf | components/DerivationPanel.tsx:14 | with the shipped content, the panel lists nothing exactly for the topics without a storyline |
| Derivation.AtMostOneActive | components/DerivationPanel.tsx:34-35 | with distinct step ids, two highlighted cards are the same card |
| Derivation.RenderCard | components/DerivationPanel.tsx:34-73 | a card is highlighted iff its id is the current id; the explanation is shown iff highlighted; prerequisites are shown iff highlighted and present; title, goal and expression are always shown |
| Derivation.Render | components/DerivationPanel.tsx:34-94 | one card per step, in storyline order |
| Derivation.ExplanationOnlyOnActiveCard | components/DerivationPanel.tsx:67-73 | with distinct ids at most one card shows its explanation, and none does when the current id is not among the steps |
| Derivation.ClickStep | components/DerivationPanel.tsx:39 | a card click selects exactly that card's step id |
| Derivation.ClickedCardBecomesActive | components/DerivationPanel.tsx:34-39 | after a click is adopted, the clicked card and no other is highlighted |
| Derivation.ClickPrerequisite | components/DerivationPanel.tsx:78-81 | a prerequisite click never selects a step; it jumps iff the prerequisite names a topic and a jump callback exists, and to that topic |
| Navigation.TopicConfig | App.tsx:40-110 | the configuration is the default (`x^2`, 1, 0, 0.5, 0.3) exactly for the 20 topics outside the 18 the switch names; every order is within [0, 20] |
| Navigation.TopicEffect | App.tsx:33-121 | the step resets to the storyline's first id when the list is non-empty and is kept otherwise; the plot takes the topic and its configuration; zoom and unit are kept |
| Navigation.TopicEffectIdempotent | App.tsx:33-121 | running the effect twice equals running it once |
| Navigation.SetTopic | App.tsx:121 | setting the current topic again changes nothing; another topic is set and its effect applied |
| Navigation.InitialState | App.tsx:10-23 | unit `u1`, topic `LIMIT_DEFINITION`, step `ed-0`, plot `x^2`/1/0/0.5/0.3 with zoom 1 |
| Navigation.MountKeepsInitialState | App.tsx:10-121 | the effect run on mount leaves the initial state unchanged |
| Navigation.ActiveUnit | App.tsx:25 | a unit of the list: the one with the id when some unit has it, else the first unit |
| Navigation.ActiveUnitOfId | App.tsx:25 | with distinct unit ids, looking up a unit's id returns that unit |
| Navigation.TargetUnit | App.tsx:28 | the first unit listing the topic, and nothing exactly when no unit lists it |
| Navigation.HandleTopicJump | App.tsx:27-31 | the topic is always set; the unit becomes the first unit listing the topic, or is unchanged when none does |
| Navigation.JumpShowsHomeUnit | App.tsx:27-31 | with the shipped catalogue, after any jump the resolved active unit lists the new topic and carries the active id |
| Navigation.ListedTopicHasHome | App.tsx:28 | a topic in the catalogue's id list has a unit to jump to |
| Navigation.JumpToListedTopic | App.tsx:27-31 | with distinct unit ids, jumping to a listed topic makes the resolved active unit one that lists it |
| Navigation.CurrentStep | App.tsx:123 | the step of the topic's list with the current id when there is one, else the placeholder titled 未命名 |
| Navigation.CurrentStepOfListedId | App.tsx:123 | an id among the topic's step ids selects a step of the list with that id |
| Navigation.Dispatch | App.tsx:168 | a step selection only changes the step id; a jump is `handleTopicJump`; no event changes nothing |
| Navigation.Handle | App.tsx:128-193 | a unit button sets only the active unit id to that unit's id; a topic button is `SetTopic`; the logo jumps to `LIMIT_DEFINITION`; a card click sets only the step id to that card's step; a prerequisite button jumps to its topic when it names one and changes nothing otherwise; a plot edit changes only the plot |
| Navigation.ShownPrerequisite | components/DerivationPanel.tsx:67-81 | a prerequisite button exists exactly for a highlighted card whose step has that many prerequisites, and it is that step's prerequisite |
| Navigation.PrerequisiteClickIsInert | components/DerivationPanel.tsx:72-81 | with the shipped storylines no prerequisite button is shown, so a prerequisite click changes nothing |
| Catalogue.StorylinesWithoutPrerequisites | constants.ts:186-286 | no shipped step lists prerequisites |
| Navigation.InitialStateValid | App.tsx:10-23 | the initial state names a catalogue unit, has the plot synchronised with the topic, and names a step of the storyline |
| Navigation.SetTopicKeepsValid | App.tsx:33-121 | a topic change keeps the page invariant |
| Navigation.JumpKeepsValid | App.tsx:27-31 | a jump keeps the page invariant |
| Navigation.HandleKeepsValid | App.tsx:128-193 | every control keeps the page invariant |
| Navigation.RunKeepsValid | App.tsx:128-193 | every sequence of events keeps the page invariant |
| Navigation.ReachableStates | App.tsx:25-123 | after any events from the initial page: the sidebar shows a catalogue unit under its own id, the plot shows the page's topic, and a topic with a storyline has its current step in that storyline |
| Navigation.CardClickSelectsStep | App.tsx:168 | a card click changes only the step id, and the header then shows the clicked step |
| Navigation.EmptyStorylineKeepsStaleStep | App.tsx:34-37 | switching to a topic without steps keeps the old id, and the header shows the placeholder |
| Navigation.StaleStepExample | App.tsx:34-37 | from the initial page, picking `DERIVATIVE_RULES` keeps `ed-0` and shows the placeholder |
| Visual.CoeffsFromSome | components/VisualPanel.tsx:26-31 | a successful run holds at most `order - i + 1` coefficients; the k-th is the k-th derivative at x0 over `(i+k)!`; it ends early only when a derivative is missing |
| Visual.CoeffsFromNone | components/VisualPanel.tsx:26-31 | the run fails exactly when some derivative up to the order exists but cannot be evaluated at x0 |
| Visual.AnalyseCoefficients | components/VisualPanel.tsx:18-38 | coefficients are empty unless the topic is `TAYLOR_SERIES`; coefficient i is the i-th derivative at x0 over i!; there are at most order+1 of them, fewer only when differentiation fails |
| Visual.AnalyseFails | components/VisualPanel.tsx:18-38 | the memo is null exactly when the text does not parse or compile, or, for the Taylor topic, an evaluation up to the order fails |
| Visual.ComputeCoefficients | components/VisualPanel.tsx:18-38 | the loop's result equals the specification `Analyse`; the error is "语法错误" exactly when the result is null and is cleared otherwise |
| Visual.TaylorSumIsHorner | components/VisualPanel.tsx:40-43 | the lowest-degree-first sum of `c_i h^i` equals the Horner form |
| Visual.TaylorAtCenter | components/VisualPanel.tsx:40-43 | at x = x0 the polynomial equals the constant coefficient, and 0 when there are no coefficients or no result |
| Visual.Clamp | components/VisualPanel.tsx:125 | the result is in [0, 20]; in-range values are kept; values below become 0 and values above become 20 |
| Visual.UpdateOrder | components/VisualPanel.tsx:125 | only the order changes, and it becomes `Clamp(v)`: within [0, 20], and `v` itself when `v` is in range |
| Visual.UpdateOrderIdempotent | components/VisualPanel.tsx:125 | clamping twice equals clamping once, and storing the resulting order again changes nothing |
| Visual.HandleX0Change | components/VisualPanel.tsx:126-129 | non-numeric input leaves the state unchanged; otherwise only x0 changes |
| Visual.ApplyEdit | components/VisualPanel.tsx:137-176 | no control changes topic or zoom; on the Taylor topic "-" and "+" store `Clamp(order - 1)` and `Clamp(order + 1)`, elsewhere they change nothing; on the basic integral the slider stores its value as `param1`, elsewhere it changes nothing; the x0 box is `HandleX0Change`; the text box sets only the function |
| Visual.OrderUpDownCancel | components/VisualPanel.tsx:160-162 | "+" then "-" from an order below 20 restores the state |
| Visual.SegmentCount | components/VisualPanel.tsx:104 | a zero slider value means 10 cells; otherwise the floor of the value |
| Visual.Partition | components/VisualPanel.tsx:104-116 | n cells for n ≥ 1, none for n ≤ 0 |
| Visual.PartitionCovers | components/VisualPanel.tsx:104-116 | each cell has width 5/n > 0; neighbouring cells touch; the first starts at x0 and the last ends at x0+5; each height is f at the left edge |
| Visual.FirstThrow | components/VisualPanel.tsx:108-110 | the index of the first cell whose evaluation fails, or the number of cells when none does; every earlier cell succeeds |
| Visual.FirstCellThrows | components/VisualPanel.tsx:108-110 | when f cannot be evaluated at x0, the first cell already throws |
| Visual.RiemannCells | components/VisualPanel.tsx:103-116 | no cells and no exception unless the topic is the basic integral and the memo succeeded; otherwise the cells of the partition for `floor(param1 \|\| 10)` before the first failing evaluation, with an exception reported exactly when one fails; every drawn cell has a height |
| Visual.DrawCells | components/VisualPanel.tsx:108-116 | the loop draws the partition's cells up to the first failing evaluation, and reports an exception exactly when one fails |
| AiChat.ConcatSkipsEmpty | components/AIChatPanel.tsx:46-55 | chunks without text contribute nothing: the accumulated text is the concatenation of the non-empty chunks in arrival order |
| AiChat.ReplaceLast | components/AIChatPanel.tsx:50-53 | the length and every earlier message are kept; the last message gets the new content and keeps its role and timestamp |
| AiChat.SendTailShape | components/AIChatPanel.tsx:27-58 | an accepted send appends exactly one user message with the input; then only model messages follow: the accumulated stream text, and one fallback when anything threw |
| AiChat.ChatPanel.constructor | components/AIChatPanel.tsx:13-15 | no messages, empty input, not typing |
| AiChat.ChatPanel.SetInput | components/AIChatPanel.tsx:138 | only the input text changes |
| AiChat.ChatPanel.StreamChunks | components/AIChatPanel.tsx:43-55 | after the loop, the last message holds the concatenated chunks; earlier messages, input and typing flag are unchanged |
| AiChat.ChatPanel.HandleSend | components/AIChatPanel.tsx:24-62 | a blank input or a send in progress changes nothing; otherwise the messages are the old ones followed by the send's tail, the input is cleared and typing is off |
| AiChat.ChatPanel.Send | components/AIChatPanel.tsx:27-61 | after the guard: the old messages are kept and the tail is appended; the input is cleared and typing is off on every path |
| IndexApp.RegistryWellFormed | index.tsx:46-102 | each manifest and its initial plot carry their key; each step list is non-empty with distinct ids; no hint names a topic |
| IndexApp.Merge | index.tsx:332 | a field present in the hint overwrites the plot's; an absent field keeps its value |
| IndexApp.MergeLaws | index.tsx:332 | an empty hint changes nothing; merging a hint twice equals merging it once; merging two hints in turn equals merging their spread |
| IndexApp.InitialState | index.tsx:319-321 | the limit topic, the empty step id and the limit topic's initial plot |
| IndexApp.TopicEffect | index.tsx:323-327 | the plot becomes the topic's initial plot and the active step the topic's first step |
| IndexApp.SelectTopic | index.tsx:323-327 | choosing the active topic again changes nothing; another topic is set and reset |
| IndexApp.StepClick | index.tsx:329-334 | the active id becomes the step's id; with a hint the plot is the merge, without one it is unchanged |
| IndexApp.CurrentStep | index.tsx:336-337 | always a step of the topic: the one with the active id when there is one, else the first |
| IndexApp.InitialCurrentStep | index.tsx:320-337 | the initial empty id shows the first step, `l1` |
| IndexApp.Handle | index.tsx:224-334 | a topic button is `SelectTopic`; a listed step button is `StepClick`; the function box sets only `functionString` and the x0 box only `x0` |
| IndexApp.MountValid | index.tsx:319-327 | after the mount effect the plot shows the active topic and the active id is `l1`, a step of it |
| IndexApp.HandleKeepsValid | index.tsx:323-334 | every control keeps the plot synchronised and the active id among the topic's steps |
| IndexApp.RunKeepsValid | index.tsx:323-334 | every sequence of controls keeps that invariant |
| IndexApp.ReachableStates | index.tsx:318-337 | after mounting and any events, the plot shows the active topic and the shown step is exactly the active one |
| IndexApp.StepButtonShowsStep | index.tsx:329-337 | clicking a step shows that very step and never moves the plot to another topic |
| IndexApp.HintKeepsTopic | index.tsx:332 | in a well-formed manifest, applying a step's hint keeps the plot's topic |
| IndexApp.ReplyContent | index.tsx:275-277 | never empty; the error text when the call threw; the reply text when it is non-empty; "I couldn't generate a response." otherwise |
| IndexApp.TutorChat.constructor | index.tsx:246-248 | no messages, empty input, not loading |
| IndexApp.TutorChat.SetInput | index.tsx:310 | only the input changes |
| IndexApp.TutorChat.HandleSend | index.tsx:253-281 | a blank input or a send in progress changes nothing; otherwise the old messages are followed by the user message and exactly one model message, the input is cleared and loading is off |
| IndexApp.TutorChat.Send | index.tsx:256-280 | after the guard: the user message and the one reply message are appended; the input is cleared and loading is off |

## Left out

- Drawing with d3 is not modelled: scales, axes, zoom and pan, paths, the secant, FTC and epsilon/delta bands, and the anchor point. mathjs internals and factorial arithmetic are left out too. mathjs is the oracle `MathLib`.
- Floating point is not modelled. Numbers are exact reals, so NaN and Infinity filtering, `toFixed` formatting and `parseFloat` behaviour are out. The x0 guard receives `parseFloat`'s result as an `Option` (`None` for NaN).
- IndexApp.Handle: the x0 box of `index.tsx` stores `parseFloat`'s result without a NaN check (`index.tsx:236`). With reals, the model only sees numeric input.
- The Taylor expression string built and re-parsed by `index.tsx:114-124` is left out, since it formats floats into text.
- Prompt assembly, the Gemini client and the per-topic AI system prompts are left out. The manifests omit `aiSystemPrompt`. The chat models only what the reply does to the message list.
- async/await and `Date.now()`: the stream is an input value (its chunks and whether it threw), and the three clock readings are parameters.
- JSX layout, scrolling, the sidebar collapse button, the quick-question buttons beyond setting the input, and the build configuration are left out.
- The header's topic-name lookup (`App.tsx:181`) is not modelled. Only the step title shown beside it is, through `Navigation.CurrentStep`.
- Navigation.CurrentStep: the placeholder of `App.tsx:123` has only a title, explanation, goal and expression. Its other fields are taken as empty, false or absent.
- Navigation.Handle: a topic button may name any topic, not only one in the active unit's chapters. The proved invariants hold for this larger set of transitions as well. Prerequisite buttons are modelled as the panel renders them (highlighted card only); no shipped step has prerequisites, so they never appear.
- Visual.RiemannCells: the exception is reported as `thrown`. What happens to it once it leaves the effect is not modelled; this includes the anchor point after the loop (`components/VisualPanel.tsx:119-121`) not being drawn.
- Topic ids as the code runs them: the 13 ids missing from the enum of `types.ts:16-42` (ARC_LENGTH, CONCAVITY_CURVE, DOUBLE_INTEGRAL, FOURIER_SERIES, IMPROPER_INTEGRAL, INTEGRATION_PARTS, INTEGRATION_TRIG, LAGRANGE_MULTIPLIER, MULTIVARIABLE_PARTIAL, MVT_CAUCHY, MVT_ROLLE, POWER_SERIES, SERIES_TESTS) are `undefined` at run time. Their 13 sidebar buttons all set the same value. The switch cases at `App.tsx:63`, `72`, `102` and `107` all read `case undefined`, so the first one wins and CONCAVITY_CURVE, POWER_SERIES and LAGRANGE_MULTIPLIER get MVT_ROLLE's `cos(x)` configuration. `topic.replace` at `components/DerivationPanel.tsx:23` throws on `undefined`. The model gives each of the 38 ids its own value, and `Navigation.TopicConfig` gives each its own case.
- Types.Step has no `visualHint` or `actionHint`. No step of `constants.ts` has one, and `App.tsx` never reads them.
