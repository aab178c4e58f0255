# h5x core, modelled in Dafny

h5x is an authoring tool for small interactive learning widgets:
- multiple-choice quizzes;
- true/false prompts;
- fill-in-the-blank exercises;
- image hotspots;
- interactive videos.

An author picks a content type and fills in a form generated from that type's schema. The form keeps a live document up to date, and a player replays it. The showcase page steps through saved projects.

This project models:
- **The schema-driven form engine.**
  - Schemas are trees of string, number, boolean, enum, object and array nodes, wrapped in default, optional, union and refine modifiers.
  - FieldRenderer peels those modifiers and dispatches on the kind. Two fields show only while a sibling `type` field holds a given tag.
  - The live document is read and written by dotted path. Field arrays carry stable row ids.
  - Error messages are looked up by path, and a boolean field's default is written into the document when the field has no value.
- **The content-type schemas**, as schema trees.
- **The interactive-video spacing rule**: interactions at least 5 seconds apart.
- **The players**:
  - multiple choice: the score loop and the rounded percentage;
  - true/false: the verdict and the feedback;
  - fill in the blank: the `*answer*` marker scan, the word pool, drag and drop, and the score;
  - interactive video: sorting by time, the seek guard, firing each interaction at most once, and the quiz overlay.
- **The hotspot list editor.**
- **The showcase page**: the type badge, index navigation, and choosing a player.

Modules, leaf first:
- `Wrappers`, `Strings`, `Lists`
- `Values` (the document tree and its `get`/`set`)
- `Paths`, `Schema`
- `FormStore` (class `Store`), `FormRender`, `Registry`
- `VideoContent`, `InteractiveVideo` (class `Session`)
- `FillBlank` (class `Session`)
- `MultipleChoice` (class `Runner`)
- `TrueFalse` (class `Player`)
- `HotspotEditor` (class `Editor`)
- `Showcase` (class `Navigator`)

State that the source keeps in React state or refs and changes step by step becomes class fields, changed by methods with `modifies` clauses. Rendering and the pure helpers are functions, and their properties are lemmas.

Modelling conventions:
- JavaScript `undefined` is `None`.
- Numbers in the document are `int`. Video times are exact `real`s.
- `Math.round` of a percentage is exact round-half-up on rationals.
- The random shuffle of the fill-blank word pool is an arbitrary permutation, passed in as a parameter.
- Schemas follow zod 3, whose API the form engine reads (`_def.innerType`, `instanceof z.ZodDefault`). In zod 3, `.default(...)` and `.optional()` copy the wrapped schema's description onto the wrapper, and `.refine(...)` yields an effects node that the peel does not unwrap. zod 4 keeps descriptions in a registry that wrappers do not inherit, and is not modelled.

## Model

| member | source | states |
|---|---|---|
| Strings.DecimalInjective | app/components/player/FillBlankPlayer.tsx:102-103 | distinct indices interpolate to distinct decimal strings, so generated ids differ |
| Strings.SplitJoin | app/routes/show.tsx:69 | `split` undoes `join` when no piece contains the separator |
| Strings.JoinSplit | app/components/editor/FormBuilder.tsx:104 | `join` undoes `split` for every string |
| Lists.Removed | app/components/editor/FormBuilder.tsx:310 | `remove(index)` drops exactly the element at the index and keeps the others in order; an index past the end removes nothing |
| Lists.RemovedDistinct | app/components/editor/FormBuilder.tsx:296 | removing a row keeps the remaining row ids distinct, and the removed id is gone |
| Values.IndexIn | app/components/editor/FormBuilder.tsx:302 | a path segment names list index i exactly when it is the decimal of i and i is below the length |
| Values.IndexInDecimal | app/components/editor/FormBuilder.tsx:343-348 | the segment `${index}` of a row path names that list index |
| Values.SetThenGet | app/components/editor/FormBuilder.tsx:156-167 | round trip: after `setValue(path, x)` on a writable path, `watch(path)` reads x |
| Values.SetUnwritableIsNoop | app/components/editor/FormBuilder.tsx:165 | in this model's `set`, a write through a list index that does not exist leaves the document unchanged (react-hook-form would extend the list; no form path writes there, see Left out) |
| Values.SetFrame | app/components/editor/FormBuilder.tsx:178 | a write leaves every path that parts ways with it unchanged |
| Paths.ChildSegments | app/components/editor/FormBuilder.tsx:29 | the child path addresses the parent's segments plus the key, also at the root |
| Paths.ParentOfChild | app/components/editor/FormBuilder.tsx:104 | `split('.').slice(0,-1).join('.')` of a child path gives back the parent |
| Paths.SiblingOfChild | app/components/editor/FormBuilder.tsx:104-105 | `${parentPath}.type` addresses the sibling `type`, also at the root, where the path starts with '.' |
| Schema.Strip | app/components/editor/FormBuilder.tsx:75-81 | a union branch is stripped of default/optional wrappers and nothing else |
| Schema.FirstSimple | app/components/editor/FormBuilder.tsx:73-92 | a union resolves to the first branch whose stripped kind is string, number, boolean or enum; None exactly when no branch qualifies |
| Schema.PeelUnderlying | app/components/editor/FormBuilder.tsx:57-100 | the peel loop computes the peel specification, with the union search inside it |
| Schema.PeelThroughModifiers | app/components/editor/FormBuilder.tsx:58-66 | any chain of default/optional wrappers peels to what the wrapped node peels to |
| Schema.PeelIsFinal | app/components/editor/FormBuilder.tsx:58-62 | the peel ends at a node that is not a modifier, or at a union with no simple branch; peeling is idempotent |
| Schema.UnionResolvesToFirstSimple | app/components/editor/FormBuilder.tsx:94-95 | a union whose first simple branch is i peels to that branch, stripped |
| Schema.UnionWithoutSimpleStays | app/components/editor/FormBuilder.tsx:96-97 | a union with no simple branch stops the peel where it is |
| Schema.LabelThroughModifiers | app/components/editor/FormBuilder.tsx:117 | through a default/optional chain the label is the outermost wrapper's description when non-empty, else the plain node's; an inner wrapper's description is never read; wrappers that copy the node's description (as `.default` and `.optional` do) show it |
| Schema.OuterDefault | app/components/editor/FormBuilder.tsx:160-161 | only an outer `.default(...)` supplies a default to the boolean effect |
| FormStore.Store.constructor | app/components/editor/FormBuilder.tsx:54 | the store starts from the given document, with no mounted arrays; the store invariant holds: distinct handed-out row ids, one id per stored element of every mounted array, mounted arrays apart |
| FormStore.Store.SetValue | app/components/editor/FormBuilder.tsx:220 | `setValue` at a path apart from or inside the elements of each mounted array writes the path, reads back the value, leaves diverging paths and all row ids alone, and keeps one id per element |
| FormStore.Store.MountFieldArray | app/components/editor/FormBuilder.tsx:262-265 | mounting a field array gives each stored element a fresh id, once |
| FormStore.Store.Append | app/components/editor/FormBuilder.tsx:285 | `append` on a mounted array adds one element and one fresh id at its end, and changes no other array's ids or elements |
| FormStore.Store.Remove | app/components/editor/FormBuilder.tsx:335 | `remove(index)` on a mounted array removes that element and its id together; the other ids and arrays are unchanged |
| FormStore.Store.MaterializeDefault | app/components/editor/FormBuilder.tsx:159-167 | the boolean default effect of one mounted switch (a pair of `FormRender.ControlsEffects`) leaves the document as the `Materialized` specification says |
| FormStore.MaterializedWrites | app/components/editor/FormBuilder.tsx:161-165 | the default is written exactly when the path is undefined and the outer node has a default; `false` is never overwritten; other paths are untouched |
| FormStore.MaterializedIdempotent | app/components/editor/FormBuilder.tsx:159-167 | re-running the effect after its write changes nothing |
| FormStore.WriteKeepsInvariant | app/components/editor/FormBuilder.tsx:220 | a `setValue` apart from, or inside an element of, each mounted array keeps one row id per stored element |
| FormStore.AppendKeepsInvariant | app/components/editor/FormBuilder.tsx:285 | appending one element and the next id keeps ids distinct, below the counter, one per element and arrays apart; the new id was in no array before |
| FormStore.RemoveKeepsInvariant | app/components/editor/FormBuilder.tsx:335 | removing an element together with its id keeps ids distinct, below the counter, one per element and arrays apart |
| FormStore.SetBelowKeepsLength | app/components/editor/FormBuilder.tsx:316-321 | a write inside an element of a list (`path.k.x`) keeps the list's length, so the row count stays right |
| FormStore.ListWriteReadBack | app/components/editor/FormBuilder.tsx:262-265 | a list written at a writable path is what the field array then reads |
| FormRender.ErrorAlongAppend | app/components/editor/FormBuilder.tsx:269-271 | the error lookup (`get` over the path split on '.') of a joined path is the lookup of the second part from the result of the first |
| FormRender.ErrorMissingSegment | app/components/editor/FormBuilder.tsx:270 | once a prefix of the path has no error node, the whole lookup is undefined |
| FormRender.ErrorOfChild | app/components/editor/FormBuilder.tsx:320 | the error of `path.key` is the `key` child of the error at `path` |
| FormRender.VisibleIffSiblingType | app/components/editor/FormBuilder.tsx:102-115 | `factContent` shows iff its sibling `type` is "fact", `quizContent` iff it is "quiz", and other fields always show |
| FormRender.SwitchingTypeKeepsContent | app/components/editor/FormBuilder.tsx:103-114 | writing `type` toggles the conditional fields and leaves their stored contents untouched |
| FormRender.Lookup | app/components/editor/FormBuilder.tsx:303 | `shape.correct` is the schema declared for the `correct` key, and is None exactly when no field has that key |
| FormRender.FieldEffects | app/components/editor/FormBuilder.tsx:103-167 | a hidden field mounts no default effect; a visible field that peels to a boolean mounts exactly its own effect, at its path with the schema it was handed; text, number, enum and unsupported fields mount none |
| FormRender.HiddenFieldMountsNothing | app/components/editor/FormBuilder.tsx:103-115 | an object's controls and mounted default effects are those of the shape without its hidden field, so nothing under a hidden field is rendered or written |
| FormRender.ControlsEffectsAppend | app/components/editor/FormBuilder.tsx:154-167 | the effects of two runs of controls are the effects of each, in order |
| FormRender.RenderFieldOutcome | app/components/editor/FormBuilder.tsx:117-249 | a field renders nothing iff it is hidden; a visible field renders the placeholder iff its peeled kind has no control |
| FormRender.UnknownKindsRenderPlaceholder | app/components/editor/FormBuilder.tsx:249 | refine effects, literals and unions without a simple branch render "Unsupported field type" under any default/optional chain |
| FormRender.RenderFieldsInOrder | app/components/editor/FormBuilder.tsx:28-40 | FormBuilder renders one control per field, in declared order, at the child path |
| FormRender.RowsAre | app/components/editor/FormBuilder.tsx:293-355 | the rows are exactly one per field id, row `i` rendered from id `i` at index `k + i` |
| FormRender.RowsFollowIds | app/components/editor/FormBuilder.tsx:293-355 | one row per field id, keyed by the id; the compact answer row exactly for "answers" over an object element; otherwise an "Item k+1" field at `path.k` |
| FormRender.AnswerRowsCorrect | app/components/editor/FormBuilder.tsx:294-303 | each compact answer row renders FieldRenderer for `path.k.correct` with the element's `correct` schema; without one, the render throws there (`Fault`) |
| FormRender.ArrayFieldRows | app/components/editor/FormBuilder.tsx:204-205 | an array-kind field renders the array list with one row per id, compact exactly for "answers" over objects |
| Registry.InteractionsFieldIsPlaceholder | app/registry/interactive-video/schema.ts:11-42 | the refined `interactions` array renders the unsupported placeholder for every document |
| Registry.QuizAnswersDefault | app/registry/interactive-video/schema.ts:23-31 | the quiz answers default has two entries, the first correct and the second not |
| Registry.ImageUrlIsTextField | app/registry/flash-card/schema.ts:6 | the `imageUrl` union resolves to its optional string branch |
| Registry.HiddenQuizMountsNothing | app/registry/interactive-video/schema.ts:21-32 | while an interaction's `type` is not "quiz", its form and its mounted default effects are those without `quizContent`, so its answers' `correct` defaults are never written (if the element were rendered; the form shows the `interactions` placeholder instead) |
| Registry.FactContentFollowsType | app/registry/interactive-video/schema.ts:14-20 | an interaction element's `factContent` field would render iff its `type` is "fact", if the element were rendered; the form shows the `interactions` placeholder instead |
| Registry.CorrectSwitch | app/components/editor/FormBuilder.tsx:169-181 | the answer's `correct` flag renders as the compact switch at its own path, checked iff `true` is stored there |
| Registry.ChoiceAnswerRowsShowSwitch | app/registry/multiple-choice/schema.ts:3-22 | a multiple-choice answer declares `correct`, so every answer row shows the inline switch at `path.k.correct`, checked iff `true` is stored, never the error |
| Registry.CorrectResponseMaterializes | app/registry/true-false/schema.ts:5 | an empty true/false document receives `correctResponse: true` from the boolean effect |
| VideoContent.SortByTime | app/components/player/InteractiveVideoPlayer.tsx:26 | sorts in place: the result is ordered by time and is a permutation of the input |
| VideoContent.SortedSpacing | app/registry/interactive-video/schema.ts:36-40 | on a time-sorted list, consecutive gaps of 5 s are equivalent to every pair being 5 s apart |
| VideoContent.SpacingIgnoresOrder | app/registry/interactive-video/schema.ts:35 | reordering the interactions does not change whether they are well spaced |
| VideoContent.CheckSpacing | app/registry/interactive-video/schema.ts:34-42 | the refine passes iff no two interactions are less than 5 s apart, and otherwise fails with the schema's message |
| VideoContent.ShortListsWellSpaced | app/registry/interactive-video/schema.ts:36 | an empty or one-element list passes the refine |
| InteractiveVideo.FirstDue | app/components/player/InteractiveVideoPlayer.tsx:46-48 | the first interaction within 0.5 s of now and not yet processed; None iff there is none |
| InteractiveVideo.Session.constructor | app/components/player/InteractiveVideoPlayer.tsx:19-28 | the interactions are sorted in place by time; last time 0, nothing processed, no overlay |
| InteractiveVideo.Session.TimeUpdate | app/components/player/InteractiveVideoPlayer.tsx:30-55 | with seeking blocked, a jump past last+1 seeks back and changes nothing else; otherwise the furthest time ratchets up, and a due interaction pauses, becomes active and is processed, its time not processed before; when nothing fires, processed, the active interaction and playback stay as they were |
| InteractiveVideo.Session.Play | app/components/player/InteractiveVideoPlayer.tsx:21-55 | over any run of time updates mixed with Continue, answer choices, Check and Try Again, the fired times are pairwise distinct and all newly processed: each interaction time fires at most once per mount |
| InteractiveVideo.Session.Continue | app/components/player/InteractiveVideoPlayer.tsx:57-62 | closes the overlay, clears the quiz state and resumes playback; processed times are kept |
| InteractiveVideo.Session.SelectQuiz | app/components/player/InteractiveVideoPlayer.tsx:129 | choosing an answer is ignored once the quiz is checked; processed times, the furthest time and playback stay |
| InteractiveVideo.Session.SubmitQuiz | app/components/player/InteractiveVideoPlayer.tsx:64-66 | checking keeps the choice and the active quiz; processed times, the furthest time and playback stay |
| InteractiveVideo.Session.TryAgain | app/components/player/InteractiveVideoPlayer.tsx:172-175 | clears the choice and the check, keeps the quiz open, and leaves nothing counted as correct; processed times, the furthest time and playback stay |
| InteractiveVideo.Session.Display | app/components/player/InteractiveVideoPlayer.tsx:91-186 | overlay hidden iff no interaction is active; a fact card iff the active interaction is a fact; "Check Answer" is enabled iff an answer is chosen and not yet checked; after checking, Continue iff correct and Try Again iff not, never both |
| FillBlank.NextStar | app/components/player/FillBlankPlayer.tsx:68 | the position found is a star or the end, at or after the start |
| FillBlank.MarkedClose | app/components/player/FillBlankPlayer.tsx:68 | a marker closes at the first star after its opening star |
| FillBlank.FindMatch | app/components/player/FillBlankPlayer.tsx:75 | `regex.exec` from lastIndex: a match opens at a star and closes at a later, non-adjacent star |
| FillBlank.FindMatchMarked | app/components/player/FillBlankPlayer.tsx:68 | the match found is a marker: no star between its stars |
| FillBlank.FindMatchLeftmost | app/components/player/FillBlankPlayer.tsx:75 | no marker opens between the start and the match found, nor anywhere after the start when none is found |
| FillBlank.AnswerOfMarker | app/components/player/FillBlankPlayer.tsx:82 | the captured answer is non-empty and contains no star |
| FillBlank.ParseBlanks | app/components/player/FillBlankPlayer.tsx:67-97 | the scan loop's parts are the `Parse` specification, and its blanks are the blank parts in order |
| FillBlank.RoundTrip | app/components/player/FillBlankPlayer.tsx:75-94 | writing the parts back, with each blank as `*answer*`, gives the original text |
| FillBlank.ParseShape | app/components/player/FillBlankPlayer.tsx:77-93 | no empty text part, no two adjacent text parts, every answer non-empty and star-free, blanks numbered blank-0, blank-1, … |
| FillBlank.NoMarkerNoBlanks | app/components/player/FillBlankPlayer.tsx:92-94 | a text without a `*…*` pair gives no blanks and at most one text part; with one it gives a blank |
| FillBlank.BlanksOfAppend | app/components/player/FillBlankPlayer.tsx:85 | the blanks of a concatenation are the blanks of each part in order |
| FillBlank.Pool | app/components/player/FillBlankPlayer.tsx:101-104 | one word per blank (its answer), then one per distractor (its text), in that order |
| FillBlank.PoolIdsDistinct | app/components/player/FillBlankPlayer.tsx:102-103 | the ids `item-<answer>-<i>` and `distractor-<i>` are pairwise distinct |
| FillBlank.Find | app/components/player/FillBlankPlayer.tsx:119 | `find` by id returns a word of the list with that id, and None iff no word has it |
| FillBlank.FindIgnoresShuffle | app/components/player/FillBlankPlayer.tsx:106 | with distinct ids, any permutation of the pool finds the same word for every id |
| FillBlank.Score | app/components/player/FillBlankPlayer.tsx:139-142 | the score never exceeds the number of blanks |
| FillBlank.FullScore | app/components/player/FillBlankPlayer.tsx:139-142 | full score iff every blank holds a word whose text is its answer |
| FillBlank.EmptyDropsScoreZero | app/components/player/FillBlankPlayer.tsx:134-136 | with nothing dropped the score is 0 |
| FillBlank.ScoreIgnoresOtherKeys | app/components/player/FillBlankPlayer.tsx:122-125 | dropping onto a key that is not a blank id leaves the score unchanged |
| FillBlank.Session.constructor | app/components/player/FillBlankPlayer.tsx:62-107 | parts and blanks come from the text; the draggables are a permutation of the pool; nothing dropped or checked |
| FillBlank.Session.DragEnd | app/components/player/FillBlankPlayer.tsx:113-128 | a drop over a target with a known word maps that target to the word found in the pool; any other drop changes nothing |
| FillBlank.Session.Check | app/components/player/FillBlankPlayer.tsx:130-132 | checking sets the submitted flag and keeps the drops |
| FillBlank.Session.Reset | app/components/player/FillBlankPlayer.tsx:134-137 | clears the drops and the check; the score is 0 and no word counts as dropped |
| FillBlank.Session.CurrentScore | app/components/player/FillBlankPlayer.tsx:139-142 | the displayed score is `Score` of the blanks and the drops: at most the number of blanks, full iff every blank holds a word whose text is its answer, 0 with nothing dropped |
| MultipleChoice.Percent | app/components/player/MultipleChoicePlayer.tsx:55 | at most 100, and the half-up rounding bracket of 100·correct/total |
| MultipleChoice.PercentFacts | app/components/player/MultipleChoicePlayer.tsx:55 | full marks give 100, none give 0, and the score is monotone in the correct count |
| MultipleChoice.CorrectCount | app/components/player/MultipleChoicePlayer.tsx:48-54 | the count never exceeds the number of questions |
| MultipleChoice.AllCorrectIffFullCount | app/components/player/MultipleChoicePlayer.tsx:49-53 | the count is full iff every question has a recorded, existing, correct answer |
| MultipleChoice.NoAnswersNoneCorrect | app/components/player/MultipleChoicePlayer.tsx:60 | with no answers recorded the count is 0 |
| MultipleChoice.ReviewMarks | app/components/player/MultipleChoicePlayer.tsx:97-99 | one mark per question, true iff that question was answered correctly |
| MultipleChoice.ReviewAgreesWithScore | app/components/player/MultipleChoicePlayer.tsx:97-102 | the review list marks as many questions correct as the score counts |
| MultipleChoice.Runner.constructor | app/components/player/MultipleChoicePlayer.tsx:13-16 | first question, no answers, not finished |
| MultipleChoice.Runner.SelectAnswer | app/components/player/MultipleChoicePlayer.tsx:26-32 | ignored once results show; otherwise records the answer for the current question only |
| MultipleChoice.Runner.Next | app/components/player/MultipleChoicePlayer.tsx:34-40 | advances one question before the last, finishes on the last, and keeps the answers |
| MultipleChoice.Runner.Finish | app/components/player/MultipleChoicePlayer.tsx:42-45 | sets finished and shows the results |
| MultipleChoice.Runner.CalculateScore | app/components/player/MultipleChoicePlayer.tsx:47-56 | the counting loop yields the rounded percentage of the correct count, at most 100 |
| MultipleChoice.Runner.Reset | app/components/player/MultipleChoicePlayer.tsx:58-63 | back to the first question with no answers; the score would be 0 |
| MultipleChoice.Runner.Display | app/components/player/MultipleChoicePlayer.tsx:18-187 | "No questions available." iff there are no questions; with questions, the results show iff the run is finished; the score shown is the rounded percentage of correctly answered questions, and the run passes iff it reaches the pass mark; the review list shows iff `showIncorrectAnswers` is set, with one mark per question, true iff answered correctly, as many as the score counts; while asking, the position is "index + 1 of total", Next is enabled iff the current question is answered, and it reads "Finish Quiz" iff on the last question |
| MultipleChoice.PerfectRunPasses | app/components/player/MultipleChoicePlayer.tsx:65-67 | all answers correct passes for any pass mark up to 100 |
| MultipleChoice.DefaultPassMark | app/components/player/MultipleChoicePlayer.tsx:67 | without settings, or without a pass mark in them, the pass mark is 80; otherwise it is the configured mark |
| TrueFalse.IsCorrect | app/components/player/TrueFalsePlayer.tsx:17 | correct iff a selection was made and it equals the expected response |
| TrueFalse.Feedback | app/components/player/TrueFalsePlayer.tsx:93-98 | the feedback for the verdict, shown only when present and non-empty |
| TrueFalse.OutlinesConsistent | app/components/player/TrueFalsePlayer.tsx:35-56 | after checking, exactly one button is green, none is green and red, and red marks exactly a wrong choice |
| TrueFalse.Player.constructor | app/components/player/TrueFalsePlayer.tsx:12-13 | nothing selected, not checked |
| TrueFalse.Player.Select | app/components/player/TrueFalsePlayer.tsx:19-22 | a selection is ignored once checked |
| TrueFalse.Player.Check | app/components/player/TrueFalsePlayer.tsx:64-69 | checking keeps the selection |
| TrueFalse.Player.Retry | app/components/player/TrueFalsePlayer.tsx:103-106 | back to unchecked with nothing selected, so nothing counts as correct |
| TrueFalse.Player.Display | app/components/player/TrueFalsePlayer.tsx:15-98 | "No content data" iff there is no content; Check is enabled iff something is selected; the verdict is correct iff the selection matches, with the matching feedback |
| HotspotEditor.ImagePathIsSibling | app/components/editor/HotspotEditor.tsx:17-18 | the image path is the sibling `image` of the hotspot list, and is `image` at the root |
| HotspotEditor.NewHotspot | app/components/editor/HotspotEditor.tsx:30-35 | the appended record holds exactly x, y, "New Hotspot" and "Description here" |
| HotspotEditor.Markers | app/components/editor/HotspotEditor.tsx:50-58 | one marker per row, keyed by the row id and numbered index+1 |
| HotspotEditor.Cards | app/components/editor/HotspotEditor.tsx:74-78 | one card per row, keyed by the row id and numbered index+1 |
| HotspotEditor.Editor.constructor | app/components/editor/HotspotEditor.tsx:12-15 | mounting the editor mounts the hotspot field array, one fresh id per stored hotspot |
| HotspotEditor.Editor.Click | app/components/editor/HotspotEditor.tsx:23-36 | with the image shown and mounted, exactly one hotspot is appended at the end with a fresh id and the id counter moves by one; otherwise nothing changes; other mounted arrays keep their ids |
| HotspotEditor.Editor.Delete | app/components/editor/HotspotEditor.tsx:109 | removes only the hotspot at that index; the others keep their order and ids; other mounted arrays keep their ids and the id counter stays |
| HotspotEditor.Editor.Display | app/components/editor/HotspotEditor.tsx:41-122 | markers only while the image shows; the count equals the number of rows; cards numbered index+1; the empty message iff there are no rows |
| HotspotEditor.Editor.CountMatchesList | app/components/editor/HotspotEditor.tsx:50-78 | the count, the cards and (while the image shows) the markers are one per stored hotspot |
| HotspotEditor.Editor.CardKeysDistinct | app/components/editor/HotspotEditor.tsx:75 | the cards' keys are distinct |
| Showcase.Capitalize | app/routes/show.tsx:69 | same length; first character upper-cased, the rest kept |
| Showcase.CapitalizeAll | app/routes/show.tsx:69 | one word per segment, each capitalized |
| Showcase.FormatTypeWords | app/routes/show.tsx:69 | for a type without spaces, the badge words are the '-'-separated segments, each capitalized, so there are as many words as segments |
| Showcase.FormatTypeExample | app/routes/show.tsx:67-70 | "multiple-choice" becomes "Multiple Choice"; a missing or empty type is "Draft" |
| Showcase.PlayerForTag | app/routes/show.tsx:149-154 | each type tag selects its own player, and only the tags select a player |
| Showcase.Render | app/routes/show.tsx:72-160 | the empty state iff there are no projects; nothing for an out-of-range index; otherwise position, badge, player or "no content yet" message, and the previous/next buttons enabled as the handlers allow |
| Showcase.Navigator.Redirect | app/routes/show.tsx:48-52 | with projects, an out-of-range index becomes 0 and an in-range one is kept |
| Showcase.Navigator.Next | app/routes/show.tsx:54-58 | moves to index+1 only before the last project; stays in range |
| Showcase.Navigator.Previous | app/routes/show.tsx:60-64 | moves to index-1 only after the first project; stays in range |
| Showcase.ButtonsMatchHandlers | app/routes/show.tsx:112-127 | on a shown page, each button is enabled exactly when its handler moves to another shown page |

## Left out

- Persistence and routing are not part of this model: the database loader, the URL search parameters and `navigate`. The showcase index is a plain integer field.
- `parseInt` of the index parameter is not modelled, so a non-numeric index (NaN) is outside the model.
- Floating point is not modelled:
  - the click-to-percentage arithmetic of the hotspot editor (HotspotEditor.tsx:26-28); a click arrives already rounded;
  - the progress bar of the multiple-choice player (MultipleChoicePlayer.tsx:24, 148-150);
  - IEEE rounding of `Math.round`, which may differ from the exact half-up percentage at .5 boundaries.
- The media player is a parameter: its time updates, `pause`/`play`, and the hidden time slider. The seek-back is returned as a value.
- Drag-and-drop internals are not modelled: dragging, the disabled state of dropped words and the drag overlay's `activeId`. A drop arrives as its target id and word id.
- The fill-blank shuffle (`Math.random`) is any permutation of the word pool, given to the session constructor.
- Validation by the schemas' checks (`.url()`, `min`/`max`), dirty tracking, `register`'s `valueAsNumber`, and the order of effects are not modelled. Only the error lookup by path is.
- Rendering details are not modelled: CSS classes, labels, icons, `toLocaleDateString`. The flash-card and image-hotspot players are not modelled.
- `toUpperCase` upper-cases ASCII letters only; other characters are kept.
- Sort stability is not modelled: the in-place sort only promises time order and a permutation.
- A union with no simple branch, and refine effects, are kept as they are, so they render the unsupported placeholder.
- FillBlank.Session.Check, TrueFalse.Player.Check, InteractiveVideo.Session.SubmitQuiz and MultipleChoice.Runner.Next require their button to be enabled. The source disables or hides the button otherwise.
- Values.Set: a write through a list index that does not exist changes nothing, and a missing container is always created as a record. react-hook-form's `set` would extend the list and create a list when the next segment is numeric. This is a defensive choice: the form engine never writes such a path, because every row path it writes belongs to an existing row.
- Values.SetUnwritableIsNoop: it states this model's no-op, which is weaker than react-hook-form's extension of the list (see Values.Set).
- FormRender.RenderRows: a compact "answers" element without a `correct` field makes FieldRenderer throw (FormBuilder.tsx:117 reads the description of `undefined`). The model records this as a `Fault` control in that row (FormRender.AnswerRowsCorrect). React discarding the whole form on that error is not modelled. Both shipped "answers" schemas declare `correct`.
- FormStore.Store: nested field arrays are not modelled. An example is an "answers" list inside a "questions" row of the multiple-choice form. Mounted arrays must lie apart, so MountFieldArray requires the new path to diverge from every mounted one. In the source, a nested array's rows move with their parent row (React keys rows by id), which a store keyed by path string does not capture.
- FormStore.Store.MaterializeDefault: the model lists the effects a render mounts (`FormRender.ControlsEffects`) and gives the write of each, but it does not run them as React does, after every render and again whenever the watched value changes.
- FormStore.Store.SetValue, MaterializeDefault: they require the written path to lie apart from, or inside an element of, each mounted array. The form never writes over a whole mounted array with `setValue`.
- FormStore.Store.Append, Remove: they require a mounted array at a writable path. `append` and `remove` exist only on a mounted `useFieldArray`, and it is mounted only for an existing row.
- Absent `distractors` are the empty list. The true/false `correctResponse` is a boolean, as its schema declares. A multiple-choice `passingScore` that is `null` rather than absent is the same `None`; its schema defaults it, so the player never sees either.
