# Survey front end — a Dafny model

This project models the logic of a survey application's Angular front end:

- the survey editor, which builds a survey's questions and their options, decides when a draft has unsaved changes and prepares the save request;
- the public answer form, which validates required questions, builds the answer payload and keeps checkbox selections;
- the results page, which turns a question's raw answers into a frequency table with percentages;
- the modal service and dialog that every screen uses for warnings and confirmations;
- the dashboard's survey table.

Everything is pure functions over immutable values. The one exception is `SurveyPublic.ValidateForm`, a method with a loop like the component's `for … of`. The modules are:

| module | file | models |
|---|---|---|
| `Wrappers` | wrappers.dfy | `Option` |
| `Seqs` | seqs.dfy | JavaScript's `filter`, `includes`, `splice(i, 1)`, element swap |
| `Text` | text.dfy | `String.prototype.trim`, with the ECMAScript whitespace and line-terminator set |
| `Json` | json.dfy | `JSON.stringify` of a string array, and a recogniser for `JSON.parse` that tells apart text that is not JSON, a JSON value that is not an array, and an array of strings |
| `Models` | models.dfy | the shared records: `Question`, `QuestionAnalytics`, `OptionCount`, `QuestionAnswer`, the request bodies and the type tags |
| `SurveyResults`, `SurveyResultsViews` | results.dfy | survey-results.component.ts |
| `SurveyPublic` | public.dfy | survey-public.component.ts |
| `SurveyForm` | form.dfy | survey-form.component.ts |
| `ModalService`, `ModalComponent` | modal.dfy | modal.service.ts and modal.component.ts |
| `SurveyTable` | table.dfy | survey-table.component.ts |

## How the model is built

- **State.** A component's state is a datatype. Each handler is a function from the old state to the new one; the component mutates its fields in place.
- **Warnings.** A warning modal that stops an action becomes `SurveyForm.Outcome.Refused(title, message)`.
- **Confirmations.** A confirmation the user answers becomes a `confirmed: bool` parameter.
- **The modal service** is a transition system:
  - `emitted` lists everything the subject has published, its last entry being the current value. The dialog keeps its own copy, which the subscription overwrites with each published value.
  - A promise is a number, and `pending` is the promise whose `resolve` is kept.
  - Settling a promise appends `(id, result)` to a log.
- **The count map.** `processOptionsData` counts into a JavaScript `Map` and then sorts. The map is modelled as a list of entries in insertion order. `Array.prototype.sort` is stable, so the sort is modelled as a stable insertion sort by descending count.
- **Percentages** are real numbers. The source computes them in floating point.

Behaviours of the code a reader may not expect:

- **A CHECKBOX answer that is JSON but not an array** (say `42` or `"x"`) adds nothing to the table (survey-results.component.ts:125-129). It is not counted as a literal label. Only text that is not JSON at all is counted literally. `parseCheckboxAnswer` instead shows such an answer as a one-element selection. `SurveyResultsViews.NumberDivergence` and `SurveyResultsViews.WordIsLiteral` pin down the two readings.
- **Percentages are not bounded by 100.** One CHECKBOX answer may list a label twice, and each copy is counted. The denominator is the server's `totalAnswers`. So a percentage can exceed 100: `SurveyResultsViews.RepeatedLabelExceeds100` shows 200.
- **A CHECKBOX question's counts can total less than its number of non-empty answers.** An answer `[]` contributes nothing (`SurveyResultsViews.EmptySelectionAddsNothing`).
- With one label per answer (RADIO, SELECT) and `totalAnswers` at least the number of answers, the percentages do stay within 0 to 100 (`SurveyResultsViews.SingleChoiceAtMost100`).

## Model

Source paths are relative to the repository root.

| member | source | states |
|---|---|---|
| SurveyResults.CheckboxFallback | src/app/features/surveys/survey-results/survey-results.component.ts:122-133 | a CHECKBOX answer that does not parse as JSON counts as one literal label; one that is JSON but not an array contributes no label at all |
| SurveyResults.CheckboxArrayAnswer | src/app/features/surveys/survey-results/survey-results.component.ts:124-128 | a CHECKBOX answer that is a JSON array adds each element as often as it occurs in the array |
| SurveyResults.SingleChoiceContributions | src/app/features/surveys/survey-results/survey-results.component.ts:134-137 | for any type but CHECKBOX, the labels counted are exactly the answers, verbatim and in order |
| SurveyResults.ContributionsConcat | src/app/features/surveys/survey-results/survey-results.component.ts:120-138 | the labels contributed by two batches of answers are those of the first batch followed by those of the second |
| SurveyResults.TallyOf | src/app/features/surveys/survey-results/survey-results.component.ts:117-138 | the count map holds each contributed label once, in order of first contribution, with its number of occurrences; the counts add up to the number of labels |
| SurveyResults.BumpFacts | src/app/features/surveys/survey-results/survey-results.component.ts:127 | `map.set(x, (map.get(x) or 0) + 1)` adds one to the count of `x` where it stands, or appends `x` with count one, and changes no other entry |
| SurveyResults.Percentage | src/app/features/surveys/survey-results/survey-results.component.ts:148 | a percentage is never negative, is zero when the total is not positive, and is at most 100 when the count does not exceed the total |
| SurveyResults.SortByCount | src/app/features/surveys/survey-results/survey-results.component.ts:153 | the sort returns a permutation of the rows with counts in non-increasing order, the same total count and still no duplicate option |
| SurveyResults.SortFirstSeen | src/app/features/surveys/survey-results/survey-results.component.ts:144-153 | because the sort is stable and the rows come in map order, rows with equal counts stay in order of first contribution |
| SurveyResults.ProcessOptionsData | src/app/features/surveys/survey-results/survey-results.component.ts:116-154 | one row per distinct contributed label, and every contributed label has a row; each count is the label's number of occurrences and the counts sum to the number of labels; each percentage is the count's share of `totalAnswers`; larger counts first, ties in first-contribution order |
| SurveyResultsViews.SingleChoiceTable | src/app/features/surveys/survey-results/survey-results.component.ts:116-154 | for RADIO and SELECT every answer has a row counting its multiplicity, and the counts sum to the number of answers |
| SurveyResultsViews.NoAnswersNoRows | src/app/features/surveys/survey-results/survey-results.component.ts:116-154 | a question without answers yields an empty table |
| SurveyResultsViews.PercentageRule | src/app/features/surveys/survey-results/survey-results.component.ts:141-149 | every row's percentage is non-negative; it is zero when `totalAnswers` is not positive, and otherwise count × 100 / totalAnswers |
| SurveyResultsViews.SingleChoiceAtMost100 | src/app/features/surveys/survey-results/survey-results.component.ts:141-149 | with one label per answer and `totalAnswers` at least the number of answers, every percentage lies between 0 and 100 |
| SurveyResultsViews.FewLabelsFewRows | src/app/features/surveys/survey-results/survey-results.component.ts:144-150 | rows with distinct options drawn from two labels number at most two, and from a single label at most one |
| SurveyResultsViews.TwoLabelRows | src/app/features/surveys/survey-results/survey-results.component.ts:116-154 | when the contributions use exactly two labels, the table has exactly two rows, one for each label |
| SurveyResultsViews.TwoLabelTable | src/app/features/surveys/survey-results/survey-results.component.ts:116-154 | with two labels, the table is exactly the more frequent label's row followed by the other's |
| SurveyResultsViews.OneLabelTable | src/app/features/surveys/survey-results/survey-results.component.ts:116-154 | when every contribution is the same label, the table is that single row, counting all contributions |
| SurveyResultsViews.RadioExample | src/app/features/surveys/survey-results/survey-results.component.ts:116-154 | for any two distinct labels a and b, the RADIO answers a, b, a, a over a total of 4 give the rows (a, 3, 75) and (b, 1, 25), in that order |
| SurveyResultsViews.SingleSelection | src/app/features/surveys/survey-results/survey-results.component.ts:122-129 | a stored CHECKBOX answer contributes exactly the selection it encodes |
| SurveyResultsViews.RepeatedLabelExceeds100 | src/app/features/surveys/survey-results/survey-results.component.ts:126-148 | for any label a, a CHECKBOX answer listing a twice, over a total of one, gives the single row (a, 2, 200) |
| SurveyResultsViews.EmptySelectionAddsNothing | src/app/features/surveys/survey-results/survey-results.component.ts:124-129 | a CHECKBOX question whose only answer is `[]` has no rows |
| SurveyResultsViews.ParseCheckboxAnswer | src/app/features/surveys/survey-results/survey-results.component.ts:194-201 | the displayed selection is empty only when the answer is the JSON array `[]` |
| SurveyResultsViews.CheckboxReadingsAgree | src/app/features/surveys/survey-results/survey-results.component.ts:194-201 | on an answer that is a JSON array or not JSON at all, the displayed selection equals the labels the table counts for it |
| SurveyResultsViews.CheckboxReadingsDiffer | src/app/features/surveys/survey-results/survey-results.component.ts:194-201 | on JSON that is not an array, the display shows the text itself while the table counts nothing |
| SurveyResultsViews.NumberDivergence | src/app/features/surveys/survey-results/survey-results.component.ts:194-201 | any numeral without a leading zero (such as `42`) is dropped from the table but shown as a one-element selection holding the numeral |
| SurveyResultsViews.WordIsLiteral | src/app/features/surveys/survey-results/survey-results.component.ts:130-132 | any answer whose first character cannot start JSON (such as `Red`) is counted and shown as the literal label itself |
| SurveyResultsViews.CheckboxRoundTrip | src/app/features/surveys/survey-results/survey-results.component.ts:194-201 | reading back what the answer form stores for a CHECKBOX question gives the selection, both for display and for counting |
| SurveyResultsViews.CheckboxContributions | src/app/features/surveys/survey-results/survey-results.component.ts:120-138 | the labels counted for stored CHECKBOX answers are all respondents' selections, one after the other |
| SurveyResultsViews.CheckboxCounts | src/app/features/surveys/survey-results/survey-results.component.ts:116-154 | for stored CHECKBOX answers, each count is the number of times the option was selected, and the counts sum to the number of selections |
| SurveyResultsViews.HasOptions | src/app/features/surveys/survey-results/survey-results.component.ts:159-161 | exactly RADIO, CHECKBOX and SELECT have options |
| SurveyResultsViews.QuestionTypeLabel | src/app/features/surveys/survey-results/survey-results.component.ts:166-175 | a type is shown as itself exactly when it is not one of the five known types |
| SurveyResultsViews.QuestionTypeLabels | src/app/features/surveys/survey-results/survey-results.component.ts:166-175 | the five known types get five different labels, none of them a type name |
| SurveyResultsViews.SwitchView | src/app/features/surveys/survey-results/survey-results.component.ts:105-110 | the requested tab becomes active; `loadResponses` is called exactly when switching to that tab while the list is empty |
| SurveyResultsViews.Fetches | src/app/features/surveys/survey-results/survey-results.component.ts:105-110 | a run of tab switches calls `loadResponses` at most once per switch |
| SurveyResultsViews.LoadedNeverFetches | src/app/features/surveys/survey-results/survey-results.component.ts:105-110 | while responses are on the page, no switch calls `loadResponses` |
| SurveyResultsViews.FetchAtMostOnce | src/app/features/surveys/survey-results/survey-results.component.ts:79-110 | when each reply lands before the next switch and brings responses, any run of switches calls `loadResponses` at most once |
| SurveyResultsViews.EmptyRefetched | src/app/features/surveys/survey-results/survey-results.component.ts:79-110 | while the list stays empty (no responses on the server, or the reply not yet back), every switch to the responses tab calls `loadResponses` again |
| Json.StringifyRoundTrip | src/app/features/surveys/survey-public/survey-public.component.ts:185-187 | `JSON.parse` of `JSON.stringify` of a string array gives back the same array, for every string, including quotes, backslashes and control characters |
| Json.Stringify | src/app/features/surveys/survey-public/survey-public.component.ts:187 | the text is bracketed, and it is `[]` exactly for the empty array |
| Json.Parse | src/app/features/surveys/survey-results/survey-results.component.ts:124 | empty text is not JSON |
| SurveyPublic.ParseOptions | src/app/features/surveys/survey-public/survey-public.component.ts:103-112 | options are present exactly when the stored text is non-empty and parses as a JSON array, and then they are that array |
| SurveyPublic.ParseOptionsRoundTrip | src/app/features/surveys/survey-public/survey-public.component.ts:103-112 | options stored with `JSON.stringify` load back unchanged |
| SurveyPublic.InitializeQuestionAnswers | src/app/features/surveys/survey-public/survey-public.component.ts:85-96 | one entry per question, in order, with the question's id, title, type, required flag and parsed options, empty text, no chosen option and no ticked box, so no valid answer yet |
| SurveyPublic.HasValidAnswer | src/app/features/surveys/survey-public/survey-public.component.ts:139-155 | TEXT and TEXTAREA need text that is not blank, RADIO and SELECT a chosen option, CHECKBOX at least one ticked box; any other type never has a valid answer |
| SurveyPublic.ValidateForm | src/app/features/surveys/survey-public/survey-public.component.ts:118-132 | the form is valid exactly when no required question lacks a valid answer, and then the message is cleared; otherwise the message names the first such question |
| SurveyPublic.GetAnswerValue | src/app/features/surveys/survey-public/survey-public.component.ts:175-192 | text answers are sent as typed, single choices as the option; a CHECKBOX selection is sent as text that the results page reads back, for display and for counting, as exactly that selection; other types send the empty string |
| SurveyPublic.BuildAnswersPayload | src/app/features/surveys/survey-public/survey-public.component.ts:161-168 | the payload has one entry per question with a valid answer, as many as there are such questions; each entry is one such question's id and encoded value, and each such question's entry is there |
| SurveyPublic.PayloadPosition | src/app/features/surveys/survey-public/survey-public.component.ts:161-168 | an answered question's entry sits after one entry for each answered question before it |
| SurveyPublic.PayloadOrder | src/app/features/surveys/survey-public/survey-public.component.ts:161-168 | for two answered questions, the earlier one's entry sits at a smaller position, each at the position `PayloadPosition` gives |
| SurveyPublic.PayloadEntry | src/app/features/surveys/survey-public/survey-public.component.ts:161-168 | each entry belongs to exactly one answered question: the one with as many answered questions before it as entries before the entry |
| SurveyPublic.FreshForm | src/app/features/surveys/survey-public/survey-public.component.ts:85-96 | a form nobody filled in sends no answers, and exactly its required questions block submission |
| SurveyPublic.OnCheckboxChange | src/app/features/surveys/survey-public/survey-public.component.ts:200-212 | after the change `isCheckboxChecked` reports the new state for that option and the old state for every other; only the selection changes; ticking appends at most the option; unticking is `Untick`; a selection without duplicates keeps none |
| SurveyPublic.Untick | src/app/features/surveys/survey-public/survey-public.component.ts:210 | every copy of the option goes and nothing else does: the length drops by its number of copies, the other options stay, and no duplicate appears |
| SurveyPublic.UntickAt | src/app/features/surveys/survey-public/survey-public.component.ts:210 | each remaining option moves forward by the number of copies of the unticked option before it, so the rest keep their order |
| SurveyPublic.RemoveAllKeeps | src/app/features/surveys/survey-public/survey-public.component.ts:210 | unticking keeps every other option and introduces no duplicate |
| SurveyPublic.CheckThenUncheck | src/app/features/surveys/survey-public/survey-public.component.ts:200-212 | ticking an unticked box and unticking it again restores the answer exactly |
| SurveyPublic.CheckboxIdempotent | src/app/features/surveys/survey-public/survey-public.component.ts:200-212 | repeating the same change has no further effect |
| SurveyPublic.GetErrorMessage | src/app/features/surveys/survey-public/survey-public.component.ts:266-276 | the message is never empty; 404 and 410 have fixed texts whatever the server says; otherwise the server's non-empty message, and failing that a generic text |
| SurveyPublic.ErrorMessageSources | src/app/features/surveys/survey-public/survey-public.component.ts:266-276 | the user reads one of the three fixed texts or the server's own message; for 404 and 410 the server's message makes no difference, otherwise a non-empty one is shown |
| SurveyForm.CaptureInitialState | src/app/features/surveys/survey-form/survey-form.component.ts:145-154 | only the snapshot and the flag change; right after a capture nothing is unsaved, and marking finds no change |
| SurveyForm.MarkAsChanged | src/app/features/surveys/survey-form/survey-form.component.ts:159-168 | only the flag changes, and it is set exactly when nothing was captured or the draft differs from the captured one |
| SurveyForm.ChangedMeansDifferent | src/app/features/surveys/survey-form/survey-form.component.ts:145-168 | after a capture, editing the draft and marking sets the flag exactly when title, description, status, expiry or questions differ, so an undone edit clears it |
| SurveyForm.ConvertOptionsFromBackend | src/app/features/surveys/survey-form/survey-form.component.ts:175-189 | the stored JSON array when there is one; no options when the text is missing, empty, not JSON or not an array |
| SurveyForm.TrimmedNonBlank | src/app/features/surveys/survey-form/survey-form.component.ts:199-201 | every entry is non-empty and already trimmed, and the list is empty exactly when every option is blank |
| SurveyForm.TrimThenFilter | src/app/features/surveys/survey-form/survey-form.component.ts:199-201 | trimming then dropping empty results equals dropping blank options then trimming, so the result is the non-blank options, trimmed, in their order |
| SurveyForm.TrimmedNonBlankAt | src/app/features/surveys/survey-form/survey-form.component.ts:199-201 | there is one entry per non-blank option, and each such option's trimmed form sits after one entry for each non-blank option before it |
| SurveyForm.TrimmedNonBlankFrom | src/app/features/surveys/survey-form/survey-form.component.ts:199-201 | every entry is the trimmed form of some option that is not blank |
| SurveyForm.TrimmedNonBlankHas | src/app/features/surveys/survey-form/survey-form.component.ts:199-201 | every option that is not blank appears, trimmed |
| SurveyForm.ConvertOptionsToBackend | src/app/features/surveys/survey-form/survey-form.component.ts:196-204 | no options are sent exactly when every option is blank; otherwise the trimmed non-blank options |
| SurveyForm.ToBackendIdempotent | src/app/features/surveys/survey-form/survey-form.component.ts:196-204 | converting what is sent again gives the same list |
| SurveyForm.OptionsSurviveSave | src/app/features/surveys/survey-form/survey-form.component.ts:175-204 | options sent, stored as JSON and loaded again come back unchanged and would be sent unchanged |
| SurveyForm.NeedsOptions | src/app/features/surveys/survey-form/survey-form.component.ts:218-220 | exactly the three choice types need options, the same types the results page draws a table for |
| SurveyForm.QuestionProblem | src/app/features/surveys/survey-form/survey-form.component.ts:222-236 | a question passes exactly when its title is not blank and a choice type has an option; a blank title is reported first, then missing options |
| SurveyForm.AddQuestion | src/app/features/surveys/survey-form/survey-form.component.ts:222-248 | refused with the check's warning and no change, or the question is appended after the others numbered last with its option box cleared, a fresh empty question numbered after it is started, the flag is recomputed, and no other field changes |
| SurveyForm.AddQuestionFacts | src/app/features/surveys/survey-form/survey-form.component.ts:238-247 | adding keeps a list numbered by position numbered, and right after a capture always counts as a change |
| SurveyForm.EditQuestion | src/app/features/surveys/survey-form/survey-form.component.ts:250-252 | only that question's editing flag changes, to on |
| SurveyForm.SaveQuestionEdit | src/app/features/surveys/survey-form/survey-form.component.ts:254-273 | goes through exactly when the same check as for adding passes, and then only ends the editing and recomputes the flag; otherwise refused with that check's warning |
| SurveyForm.CancelQuestionEdit | src/app/features/surveys/survey-form/survey-form.component.ts:275-277 | only that question's editing flag changes, to off; edits made are kept and the unsaved flag is untouched |
| SurveyForm.EditThenCancel | src/app/features/surveys/survey-form/survey-form.component.ts:250-277 | opening and cancelling the edit of a question not being edited restores the editor |
| SurveyForm.EditThenSave | src/app/features/surveys/survey-form/survey-form.component.ts:250-273 | opening the edit of a question that passes the check and saving it at once changes nothing but the unsaved flag |
| SurveyForm.Renumber | src/app/features/surveys/survey-form/survey-form.component.ts:287-289 | renumbering sets each order to its position plus one, changes nothing else, and leaves a numbered list as it is |
| SurveyForm.RemoveQuestion | src/app/features/surveys/survey-form/survey-form.component.ts:279-292 | declined, nothing changes; confirmed, exactly the question at `splice`'s position is removed (counted from the end when negative, none when past the end), the rest keep their order and are renumbered, and the flag is recomputed |
| SurveyForm.MoveUp | src/app/features/surveys/survey-form/survey-form.component.ts:294-306 | the entry trades places with the previous one and nothing else moves; at the top nothing changes |
| SurveyForm.MoveDown | src/app/features/surveys/survey-form/survey-form.component.ts:308-320 | the entry trades places with the next one and nothing else moves; at the bottom nothing changes |
| SurveyForm.MoveUpDownInverse | src/app/features/surveys/survey-form/survey-form.component.ts:294-320 | moving an entry up and then down restores the list, and so does down then up |
| SurveyForm.MoveQuestionUp | src/app/features/surveys/survey-form/survey-form.component.ts:294-306 | at the top nothing happens at all; otherwise the questions are swapped, renumbered and the flag recomputed |
| SurveyForm.MoveQuestionDown | src/app/features/surveys/survey-form/survey-form.component.ts:308-320 | at the bottom nothing happens at all; otherwise the questions are swapped, renumbered and the flag recomputed |
| SurveyForm.MovesKeepNumbering | src/app/features/surveys/survey-form/survey-form.component.ts:294-320 | a move keeps the number of questions and leaves the list numbered by position, unless it did nothing |
| SurveyForm.MoveUpThenDown | src/app/features/surveys/survey-form/survey-form.component.ts:294-320 | on a numbered list, moving a question up and back down restores the draft |
| SurveyForm.AddOptionToNewQuestion | src/app/features/surveys/survey-form/survey-form.component.ts:410-416 | blank input changes nothing; otherwise the trimmed, non-empty input is appended to the new question's options and the input box is cleared |
| SurveyForm.RemoveOptionFromNewQuestion | src/app/features/surveys/survey-form/survey-form.component.ts:421-423 | removes exactly the option at `splice`'s position and nothing else; past the end nothing changes; a valid index loses precisely one copy of that option |
| SurveyForm.MoveOptionUpInNewQuestion | src/app/features/surveys/survey-form/survey-form.component.ts:428-434 | only the new question's options change: the option trades places with the one above it, the others stay; at the top nothing changes |
| SurveyForm.MoveOptionDownInNewQuestion | src/app/features/surveys/survey-form/survey-form.component.ts:439-445 | only the new question's options change: the option trades places with the one below it, the others stay; at the bottom nothing changes |
| SurveyForm.AddThenRemoveOption | src/app/features/surveys/survey-form/survey-form.component.ts:410-423 | removing the option just added to the new question restores its options; only the input box stays cleared |
| SurveyForm.NewOptionMoveBack | src/app/features/surveys/survey-form/survey-form.component.ts:428-445 | moving an option of the new question down and back up restores the editor |
| SurveyForm.WithQuestion | src/app/features/surveys/survey-form/survey-form.component.ts:450-489 | replacing one question of the list leaves the length and every other question unchanged |
| SurveyForm.AddOptionToQuestion | src/app/features/surveys/survey-form/survey-form.component.ts:450-457 | blank input changes nothing; otherwise the trimmed input is appended to that question's options, its box cleared and the flag recomputed; no other question changes |
| SurveyForm.RemoveOptionFromQuestion | src/app/features/surveys/survey-form/survey-form.component.ts:462-465 | removes the option at `splice`'s position, if any, from that question only, and recomputes the flag; no other question and no order changes |
| SurveyForm.AddThenRemoveOptionInQuestion | src/app/features/surveys/survey-form/survey-form.component.ts:450-465 | removing the option just added to a question restores that question but for its cleared input box |
| SurveyForm.MoveOptionUpInQuestion | src/app/features/surveys/survey-form/survey-form.component.ts:470-477 | at the top nothing happens, not even the flag; otherwise that question's options move up and the flag is recomputed; no other question changes |
| SurveyForm.MoveOptionDownInQuestion | src/app/features/surveys/survey-form/survey-form.component.ts:482-489 | at the bottom nothing happens, not even the flag; otherwise that question's options move down and the flag is recomputed; no other question changes |
| SurveyForm.FindLabel | src/app/features/surveys/survey-form/survey-form.component.ts:400-403 | a label is found exactly when some choice has the type, and then it is that choice's label |
| SurveyForm.EditorTypeLabels | src/app/features/surveys/survey-form/survey-form.component.ts:400-403 | each listed type gets its own label from the editor's list, and any other type is shown as itself |
| SurveyForm.LabelsAgree | src/app/features/surveys/survey-form/survey-form.component.ts:400-403 | the editor labels each known type with the results page's label followed by the part in brackets, and any other type both show as itself |
| SurveyForm.Cancel | src/app/features/surveys/survey-form/survey-form.component.ts:383-398 | without unsaved changes the editor is left at once; with them, only when the user confirms |
| SurveyForm.LeaveAfterUndo | src/app/features/surveys/survey-form/survey-form.component.ts:383-398 | after edits that restore the captured draft no confirmation is needed; after real changes, declining it keeps the editor open |
| SurveyForm.SaveSurvey | src/app/features/surveys/survey-form/survey-form.component.ts:322-358 | a blank title is refused first, then an empty question list; otherwise the request carries the trimmed title (non-empty) and description, the status, the expiry only when one was entered, and each question as trimmed title, type, cleaned options, order and required flag; it goes to update exactly in edit mode with a non-zero id |
| SurveyForm.SavedPayloadClean | src/app/features/surveys/survey-form/survey-form.component.ts:342-354 | the request never carries a blank or untrimmed option nor an empty option list, and a numbered list goes out numbered 1, 2, 3, … |
| ModalService.InitValid | src/app/shared/services/modal.service.ts:20-21 | the service starts showing nothing, with no promise pending |
| ModalService.Show | src/app/shared/services/modal.service.ts:94-103 | the modal shown is the given one, a fresh promise becomes the pending one, nothing is settled, and the invariant (no promise settled twice, pending not yet settled) holds |
| ModalService.ShowInfo | src/app/shared/services/modal.service.ts:33-40 | shows an info modal with the button text "Aceptar" and waits on a fresh promise |
| ModalService.ShowSuccess | src/app/shared/services/modal.service.ts:45-52 | shows a success modal with the button text "Aceptar" and waits on a fresh promise |
| ModalService.ShowWarning | src/app/shared/services/modal.service.ts:57-64 | shows a warning modal with the button text "Aceptar" and waits on a fresh promise |
| ModalService.ShowError | src/app/shared/services/modal.service.ts:69-76 | shows an error modal with the button text "Aceptar" and waits on a fresh promise |
| ModalService.ShowConfirm | src/app/shared/services/modal.service.ts:81-89 | shows a confirm modal with the given title and message whose button texts default to "Confirmar" and "Cancelar" when not given, and waits on a fresh promise |
| ModalService.Close | src/app/shared/services/modal.service.ts:134-139 | nothing is shown afterwards, and the pending promise stays pending and unsettled |
| ModalService.ConfirmModal | src/app/shared/services/modal.service.ts:108-116 | the pending promise, if any, is settled with true, exactly once; then nothing is pending or shown |
| ModalService.CancelModal | src/app/shared/services/modal.service.ts:121-129 | the pending promise, if any, is settled with false, exactly once; then nothing is pending or shown |
| ModalService.Step | src/app/shared/services/modal.service.ts:94-139 | every call publishes exactly one value, keeps the invariant and only ever appends to the log of settled promises, at most one entry at a time |
| ModalService.Run | src/app/shared/services/modal.service.ts:94-139 | any sequence of calls keeps the invariant and only extends the log of settled promises |
| ModalService.SettledAtMostOnce | src/app/shared/services/modal.service.ts:108-129 | from the start, whatever is called, no promise is settled twice |
| ModalService.AbandonedStaysUnsettled | src/app/shared/services/modal.service.ts:98-100 | a promise that is no longer pending and was never settled stays unsettled forever |
| ModalService.ReplacedNeverSettled | src/app/shared/services/modal.service.ts:94-103 | opening a modal while another waits drops the first promise: it is never settled, whatever follows |
| ModalService.OpenThenAnswer | src/app/shared/services/modal.service.ts:94-139 | after opening, confirming settles the opener's promise with true and cancelling with false; closing settles nothing and leaves it pending |
| ModalComponent.Deliver | src/app/shared/components/modal/modal.component.ts:21-24 | after the callback has run on a list of published values, the field holds the last of them, or what it held when there were none |
| ModalComponent.OnInit | src/app/shared/components/modal/modal.component.ts:20-25 | subscribing replays the subject's current value, so the field holds it |
| ModalComponent.Act | src/app/shared/components/modal/modal.component.ts:20-25 | a service call made while subscribed leaves the field holding what the service published last |
| ModalComponent.FieldFollowsSubject | src/app/shared/components/modal/modal.component.ts:20-25 | after subscribing and any run of service calls, the service is as without the dialog and the field holds its last published value |
| ModalComponent.FieldFollowsFrom | src/app/shared/components/modal/modal.component.ts:20-25 | a dialog whose field agrees with the service keeps agreeing over any run of calls |
| ModalComponent.OnConfirm | src/app/shared/components/modal/modal.component.ts:27-29 | the confirm button confirms through the service; afterwards nothing is pending and the field is empty |
| ModalComponent.OnCancel | src/app/shared/components/modal/modal.component.ts:31-33 | the cancel button cancels through the service; afterwards nothing is pending and the field is empty |
| ModalComponent.GetIconClass | src/app/shared/components/modal/modal.component.ts:35-50 | empty exactly when nothing is shown, otherwise the icon of the modal's type |
| ModalComponent.GetHeaderClass | src/app/shared/components/modal/modal.component.ts:52-65 | empty exactly when nothing is shown, otherwise the border of the modal's type |
| ModalComponent.Styling | src/app/shared/components/modal/modal.component.ts:35-65 | with nothing shown both classes are empty, otherwise neither is; the icon tells all five types apart, the header only four, with info and confirm sharing the primary border |
| ModalComponent.DialogFollowsService | src/app/shared/components/modal/modal.component.ts:20-65 | after the service shows a success, confirm or info modal, closes, or is confirmed, the dialog has the matching icon and header classes |
| SurveyTable.BadgeClasses | src/app/features/dashboard/components/survey-table/survey-table.component.ts:24-31 | two statuses share a badge exactly when they are equal or neither is published or draft; of the editor's status choices only closed is grey |
| SurveyTable.StatusLabels | src/app/features/dashboard/components/survey-table/survey-table.component.ts:33-40 | the table labels each status exactly as the editor's status choices do; the three labels differ and none is a status name; an unknown status is shown as itself |
| SurveyTable.GetStatusBadgeClass | src/app/features/dashboard/components/survey-table/survey-table.component.ts:24-31 | `bg-success` for published, `bg-warning text-dark` for draft, and grey exactly for any other status |
| SurveyTable.GetStatusLabel | src/app/features/dashboard/components/survey-table/survey-table.component.ts:33-40 | a status is shown as itself exactly when it is not one of the three known ones |
| SurveyTable.Handle | src/app/features/dashboard/components/survey-table/survey-table.component.ts:42-64 | each button emits once on its own output, with the survey id where there is one, and on no other output |
| SurveyTable.OutputsFollowClicks | src/app/features/dashboard/components/survey-table/survey-table.component.ts:42-64 | after any clicks the delete and edit outputs have carried exactly the ids of the delete and edit clicks, in click order |

## Left out

- HTTP calls, Observables, the router, `ngZone.run`, `appRef.tick` and change detection are not modelled. A service call's result reaches the model as a parameter: the `HttpError` given to `GetErrorMessage`, the analytics given to `ProcessOptionsData`, the user's answer to a confirmation.
- Loading a survey into the editor (`loadSurvey`) is not modelled beyond `ConvertOptionsFromBackend`. That includes cutting the expiry date at `T`, mapping the server's questions and the route parameter handling in `ngOnInit`.
- `submitResponse`, `resetForm` and the respondent's name and e-mail fields are not modelled: they only pass state to the HTTP layer.
- `getBarWidth` is not modelled: it rounds a floating-point percentage for CSS.
- `saveSurvey` converts the expiry date with `new Date(…).toISOString()`; the model sends the entered text unchanged. Date parsing is outside the model.
- `SurveyForm.MarkAsChanged`: the component compares `JSON.stringify` texts of the draft. The model compares the values structurally. The two agree except where serialisation merges values: `undefined` fields are omitted from the text, and `-0` prints as `0`.
- `Json.Parse`: an array that holds anything but strings is read as text that is not JSON. The component would keep such an array:
  - `parseOptions` and `convertOptionsFromBackend` return it;
  - `processOptionsData` counts its elements as map keys of other types;
  - `parseCheckboxAnswer` displays the array's elements.
  So for arrays like `[1, 2]` the model counts the answer as one literal label, and the component counts 1 and 2. `SurveyResultsViews.ParseCheckboxAnswer` displays `["[1,2]"]` where the component displays 1 and 2.
- `Json.Parse`: a `\u` escape that encodes half of a surrogate pair is refused. Dafny characters are Unicode scalar values, and JavaScript strings can hold lone surrogates.
- `SurveyResultsViews.QuestionTypeLabel`: the source looks the type up in an object literal. A type such as `constructor` or `toString` therefore finds an inherited property, not the type itself. The model returns the type for every unknown name.
- Optional fields (`textValue?`, `selectedOption?`, `selectedOptions?`, `description?`) are always present in the model. An absent one is the empty string or list, which is what the component's `|| ''` and `|| []` fall back to.
- `SurveyForm.MoveQuestionUp`, `SurveyForm.MoveOptionUpInNewQuestion`, `SurveyForm.MoveOptionUpInQuestion`: they require an index below the list's length, and the Down variants a non-negative index. They are meant to be called with the index of an existing entry. Outside that range the component would write `undefined` into the list.
- `SurveyForm.AddOptionToQuestion`, `SurveyForm.RemoveOptionFromQuestion` and the other per-question edits take the question's position in the list. The component takes the question object itself, which is the same question.
- `SurveyPublic.OnCheckboxChange` takes the box's new state as a boolean, not the DOM event.
- `SurveyResultsViews.Fetches` counts calls to `loadResponses`, not requests: the component sends none when `surveyId` is unset. It assumes every reply comes back before the next switch, with the same number of responses each time. A failed fetch leaves the list empty, which behaves as a server with no responses does. The list replaced after deleting a response is not modelled.
- `SurveyResultsViews.FetchAtMostOnce` holds only when each reply lands before the next switch. Two switches to the responses tab before the first reply leave the list empty, so both call `loadResponses` and two requests are sent; `SurveyResultsViews.EmptyRefetched` covers that case, since the list stays empty until a reply lands.
- `ModalComponent.Act` models only service calls made after `ngOnInit` has subscribed. The dialog is created with the application and subscribes before any screen can open a modal.
- `SurveyResults.Percentage` computes over the reals; the component computes in floating point.
- The editor's `isSaving` and `isLoading` flags and the success and error modals after a save are not modelled. They follow the HTTP response.
