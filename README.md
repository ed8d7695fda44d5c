# Multi-grader grading form: a verified model of its state engine

The Moodle advanced-grading plugin `gradingform_multigraders` lets several
teachers grade one submission, one after the other. Every teacher leaves
one grade record for the item. A record is either Intermediary or Final.
The teacher who wrote the first record (the "owner") decides the final
grade. Other teachers may add a record only when the owner or the previous
grader asked for a second grader. This project models four parts of the
plugin:

- the record engine of `gradingform_multigraders_instance` in `lib.php`.
  It covers validation of a submitted grade and the parsing of the
  grade-range labels. It covers the one-record-per-grader upsert and the
  lock that a Final record places on everyone else. It also covers the
  admin delete-all, the raw grade pushed to the gradebook, and who gets
  notified. The change-level check of `update_or_check_definition` is here
  too;
- the permission and aggregation pass of `display_form` in `renderer.php`.
  One scan over the records picks the first, current and previous records
  and computes the suggested next grade and outcomes. A sequence of flag
  updates then decides what the viewer may do and which records blind
  marking hides. The student-view branch of `display_grade` and
  `get_css_class_suffix` are here too;
- the formula rewriting of `updateGrade` and `nl2br` in `js/multigraders.js`;
- the PHP semantics these depend on, which Dafny does not provide:
  `is_numeric`, `floatval`, loose `==`, the mixed `<` of PHP 8,
  truthiness, `trim`, `strstr`, `explode` and `implode`.

Modules (one per file):

- `Wrappers`: `Option`.
- `PhpStrings`: the PHP string semantics above.
- `GradeRange`: `getGradeRange` and PHP's `sort` of the labels.
- `Records`: the records table and its invariants, the upsert and
  `get_final_grader`.
- `Validation`: `validate_grading_element` as a verdict.
- `Notifications`: recipient selection and the notice decision.
- `GradingInstance`: the class `Instance`. It holds the table, the raw
  grade, the validation errors and the cached grade range.
- `Definition`: `update_or_check_definition` and `update_definition`.
- `Aggregation`: the record scan of `display_form` and its suggested grade
  and outcomes.
- `Renderer`: the permission flags, the listing with blind marking, the
  blank-record offer, `display_grade` in VIEW mode and the CSS suffix.
- `ClientScript`: `updateGrade` and `nl2br`.

The records table of one item is a `seq<GradeRecord>` in timestamp order
with one record per grader. This is the timestamp-ordered array, keyed by grader id, that
`get_instance_grades` builds from the database. `KeyByGrader` turns
it into the map. The database is the `rows` field of
`GradingInstance.Instance`. The current user, the clock (`now`), the
`moodle/site:config` capability (`isAdmin`) and the gradebook's
locked-or-overridden flag (`disabled`) are parameters.

Where the code and its documentation differ, the model follows the code:

- In VIEW, REVIEW and EVAL_FROZEN, the author of the first record still ends
  with both rights. The owner rule at renderer.php:296-301 runs after the
  read-only rule at renderer.php:245-253.
- `update_definition` never marks instances for regrading. With
  `$doupdate` true, the change level is never 5 (lib.php:101-107, 126-130).
- A grader with a record of their own is not offered a blank record again
  (renderer.php:357-359).

## Model

| member | source | states |
|---|---|---|
| `PhpStrings.NatToStringNumeric` | lib.php:1202 | a user id written in decimal is numeric and reads back as the id, so loose `==` on ids compares the numbers |
| `PhpStrings.ExplodeImplode` | lib.php:143-145 | `explode(',')` of a comma-joined list of comma-free ids gives the ids back |
| `PhpStrings.ContainsFactor` | renderer.php:151-154 | the `strstr` test finds an id wherever it sits inside the list text |
| `GradeRange.FromLabels` | lib.php:675-701 | the range is null exactly when there are no labels, or both the first and last labels in their original order are non-numeric |
| `GradeRange.SortLabelsSorted` | lib.php:684 | PHP's `sort` puts numeric labels in ascending numeric order (and `SortLabels` keeps the same multiset) |
| `GradeRange.NumericRange` | lib.php:682-697 | for numeric labels the range is (least label, with 1 turned into 0; greatest label) |
| `GradeRange.CutAtSlash` | lib.php:687-694 | a label "a/b" gives the lower bound a (text before `/`) and the upper bound b (text after `/`) |
| `Validation.Validate` | lib.php:761-798 | an early accept exactly for delete-all or an absent or blank grade; an accept only for a numeric, non-negative grade; a rejection always under the key `grader . type` |
| `Validation.EarlyAcceptance` | lib.php:765-772 | `multigraders_delete_all == 'true'`, an absent grade and a whitespace grade all pass before anything else is looked at |
| `Validation.InvalidGradeRejected` | lib.php:779-782 | a present, non-blank grade that is non-numeric or negative is rejected with `err_gradeinvalid` |
| `Validation.RangeRejection` | lib.php:783-797 | a valid grade is rejected exactly when there is a range and the grade is below its truthy lower bound or above its truthy upper bound |
| `Validation.FalsyLowerBoundIgnored` | lib.php:785 | with a lower bound of 0 the only possible range rejection comes from the upper bound |
| `Validation.RangeStartingAtOneAcceptsFractions` | lib.php:695-697 | when the labels start at 1, a grade between 0 and 1 passes the range check of lines 784-797, because the lower bound became 0 |
| `Validation.AcceptedWhenInside` | lib.php:784-797 | a valid grade inside both bounds is accepted |
| `Records.FirstRecord` | lib.php:858-861 | the first record is the earliest one, present exactly when the table is not empty |
| `Records.Lookup` | lib.php:862-864 | a grader's record is found exactly when the table holds one with that grader |
| `Records.LookupAt` | lib.php:817 | with one record per grader, each record is the one found under its grader |
| `Records.FinalGrader` | lib.php:1004-1014 | null exactly when no record is Final; otherwise the author of the first Final record |
| `Records.LastFinal` | lib.php:865-867 | the `finalGradeRecord` of the scan is a Final record of the table, null exactly when none is Final |
| `Records.LastFinalIsFinalGrader` | lib.php:1004-1014 | under the one-Final invariant, the last Final record found by the scan in `update` (lines 865-867) and `get_final_grader` name the same grader |
| `Records.KeyByGrader` | lib.php:806-821 | the keyed array holds each grader's record under that grader, keys in table order |
| `Records.UpsertSpec` | lib.php:901-924 | after the write, no two records share a grader id and the records stay in timestamp order; the submitter has the new record, with the old timestamp when they had one and `now` otherwise; every other grader's record is unchanged; the table grows by one only for a new grader; nothing else is added or lost |
| `Records.InsertByTimeNewest` | lib.php:923 | when the clock has not gone back, the inserted row comes last in the re-read table |
| `Records.InsertByTimeMultiset` | lib.php:923 | inserting adds exactly the new row |
| `Records.UpsertKeepsOneFinal` | lib.php:871-924 | a save allowed past the lock keeps at most one Final record |
| `Notifications.Candidates` | lib.php:1184-1197 | the ids tried are the comma-split secondary list, plus the first grader when a secondary grader sends the notice |
| `Notifications.Recipients` | lib.php:1200-1204 | an id receives the notice exactly when it is tried, non-empty, not "0" and not loosely equal to the sender |
| `Notifications.SelectRecipients` | lib.php:1184-1235 | the loop with its `continue` sends to exactly `Recipients` of the candidates, in order |
| `Notifications.IdTextSkipped` | lib.php:1202 | a user id's text is skipped exactly when it is 0 or the sender's own id |
| `Notifications.SenderNeverRecipient` | lib.php:1202-1204 | the sender, an empty id and "0" never receive the second-grader notice |
| `Notifications.FirstGraderRecipient` | lib.php:1190-1202 | a secondary grader's notice reaches a non-zero first grader other than the sender; an owner's notice goes to the list only |
| `Notifications.ListedRecipients` | lib.php:1184-1204 | every listed id that is truthy and not the sender's receives the notice |
| `Notifications.NotifyDecisionSpec` | lib.php:940-947 | the second-grader notice exactly when the record is not Final, second grading is requested and the submitter had no record, one without the request or one of another type; else the first grader, when there is one and it is not the submitter; else nothing |
| `Notifications.FinalNeverAsksSecondGrader` | lib.php:941 | a Final record never sends the second-grader notice |
| `Notifications.NotifyDecisionAsWritten` | lib.php:940-947 | as written: the second-grader notice to the recipients exactly when second grading is due; otherwise the first-grader notice exactly when the first record's grader is not the submitter or, with no first record, when the user id is non-zero, and then to a null record; otherwise nothing |
| `Notifications.NullFirstGraderNotice` | lib.php:945-946 | a first save on an empty table without a second-grading request sends the first-grader notice to a null record; the corrected decision sends nothing |
| `Notifications.DecisionsAgreeWithFirstRecord` | lib.php:945-947 | the as-written and the corrected decisions agree whenever there is a first record |
| `GradingInstance.RecordKind` | lib.php:889-896 | the record is Final exactly when both `grading_final` and `final_grade` were sent |
| `GradingInstance.SubmittedGrade` | lib.php:882-884 | `grade_hidden` replaces `grade` when it was sent |
| `GradingInstance.NewRecord` | lib.php:908-917 | the written row is the submitter's, stamped now, with the computed type and grade |
| `GradingInstance.LockedIffOtherFinalGrader` | lib.php:870-877 | `update` is locked out exactly when some record is Final and its grader is not the submitter |
| `GradingInstance.RawgradeAfter` | lib.php:926-937 | the raw grade becomes the grade for a Final record and -1 for a non-Final owner save; otherwise it is unchanged |
| `GradingInstance.ScanTable` | lib.php:858-868 | the loop yields the first record, the submitter's record and the last Final record |
| `GradingInstance.CheckRange` | lib.php:783-797 | the range step accepts exactly when the verdict does, and the errors hold exactly the rejection's one error |
| `GradingInstance.Instance.GetGradeRange` | lib.php:675-701 | the result is the range of the labels; the cache is set to a non-null result and is kept otherwise |
| `GradingInstance.Instance.ValidateGradingElement` | lib.php:761-798 | accepts exactly when the verdict does; the errors are untouched on an early accept, reset on an accept, and hold the one error of a rejection |
| `GradingInstance.Instance.CheckGrade` | lib.php:774-797 | after the early accepts the errors are reset and then hold the rejection's error, if any |
| `GradingInstance.Instance.GetInstanceGrades` | lib.php:806-821 | the key order lists every record's grader id in timestamp order and holds every record under its grader |
| `GradingInstance.Instance.Update` | lib.php:830-955 | delete-all clears the table and sets the raw grade to -1 for an admin, and is a no-op for anyone else; a locked-out save changes nothing; any other save upserts the submitter's record with the computed type, leaves the other graders' records alone, makes a Final submitter the final grader, keeps one record per grader in timestamp order with at most one Final, and ends with the notice decision as written, including the first-grader notice to a null record on an empty table |
| `GradingInstance.Instance.Store` | lib.php:878-947 | the save after the lock checks: the upsert, the raw grade and the as-written notice decision, as in `Update` |
| `GradingInstance.Instance.GetGrade` | lib.php:971-990 | -1 without a grade range, otherwise the greatest integer not above the raw grade |
| `GradingInstance.Instance.GetFinalGrader` | lib.php:1004-1014 | a final grader exists exactly when a record is Final, and it is that record's grader |
| `Definition.Prepare` | lib.php:140-145 | unset `blind_marking` and `show_intermediary_to_students` become 0; the id list is imploded with commas; the rest is kept |
| `Definition.UpdateOrCheckDefinition` | lib.php:122-190 | the loop reports the as-written change level, and the options row, taken from the prepared submission, is written exactly when updating with a level other than 0 |
| `Definition.UpdateDefinition` | lib.php:101-107 | the definition is saved as ready and the regrade step never runs; the options row of the ready submission is written exactly when the as-written level is not 0 |
| `Definition.ChangeLevelValues` | lib.php:111-189 | with the corrected comparison, the level is 0, 1 or 5, and 5 exactly for a check without a stored definition |
| `Definition.KeyChangeReported` | lib.php:147-151 | with the corrected comparison, a change in any one compared property gives level 1 |
| `Definition.KeyChangeReportedAsWritten` | lib.php:147-151 | as written, a change in any one compared property gives level 1 |
| `Definition.NoChangeNoLevel` | lib.php:147-160 | with the corrected comparison, no changed property and no new author give level 0 |
| `Definition.NoChangeNoLevelAsWritten` | lib.php:147-160 | as written, no changed property and no new author give level 0 |
| `Definition.DiffersIrreflexive` | lib.php:148 | a value never differs from itself |
| `Definition.ChangeLevelAsWritten` | lib.php:122-177 | as written: the level is 0, 1 or 5, and 5 exactly for a check without a stored definition |
| `Definition.EditorCriteriaAlwaysChange` | lib.php:147-151 | as written, criteria submitted from the editor against stored criteria text always give level 1, since an array never equals a string |
| `Definition.ResubmittedCriteriaChange` | lib.php:147-177 | as written, re-submitting unchanged criteria from the editor still reports a change |
| `Definition.ResubmittedUnchanged` | lib.php:147-177 | with the corrected comparison, re-submitting the saved definition reports level 0 |
| `Definition.CorrectedAgreesWithoutEditor` | lib.php:147-151 | the corrected and as-written levels agree when no property is an editor array |
| `Aggregation.MethodCase` | renderer.php:160 | an unset `auto_calculate_final_method` matches `case 0` of the loose switch |
| `Aggregation.PreviousOf` | renderer.php:209-211 | `previous` is a record of the table |
| `Aggregation.MinGrade` | renderer.php:164-168 | the minimum is a grade of the table and not above any other, present exactly for a non-empty table |
| `Aggregation.MaxGrade` | renderer.php:169-173 | the maximum is a grade of the table and not below any other, present exactly for a non-empty table |
| `Aggregation.Suggested` | renderer.php:159-223 | last: the grade of the last record; min and max: an attained least or greatest grade, null only for no records; average: the sum over the record count, null exactly when the sum is 0; any other method: null |
| `Aggregation.MinOutcome` | renderer.php:184-188 | the least value of an outcome among the records that set it |
| `Aggregation.MaxOutcome` | renderer.php:189-193 | the greatest value of an outcome among the records that set it |
| `Aggregation.LastOutcome` | renderer.php:181-183 | the last value set for an outcome comes from a record of the table |
| `Aggregation.LastOutcomeIsLast` | renderer.php:181-183 | null when no record has outcomes; otherwise outcome `x` of the last record that has outcomes |
| `Aggregation.SuggestedOutcome` | renderer.php:178-229 | under the average method an outcome is pre-filled exactly when the last record has outcomes and the outcome's sum is not 0, and then with the sum over the record count rounded down; an unknown method pre-fills nothing |
| `Aggregation.SuggestedOutcomes` | renderer.php:178-229 | an outcome index is pre-filled exactly when it is an index of the item and its suggestion is not null, and then with that suggestion |
| `Aggregation.ScanRecords` | renderer.php:157-233 | the one loop yields the first, current and previous records, the suggested grade and the suggested outcomes |
| `Aggregation.PreviousBeforeCurrent` | renderer.php:203-211 | with the viewer's record at position i, `previous` is the record at i - 1, and null at 0 |
| `Aggregation.PreviousWithoutCurrent` | renderer.php:209-211 | a viewer with no record sees the last record as `previous` |
| `Aggregation.LastIncludesViewer` | renderer.php:159-163 | the last-grade method counts the viewer's own record |
| `Aggregation.UnsetMethodIsLast` | renderer.php:160-180 | an unset method suggests what method 0 does |
| `Aggregation.AverageNeedsLastOutcomes` | renderer.php:224 | the average method suggests no outcomes when the last record has none |
| `Renderer.DecideAccess` | renderer.php:244-301 | the step-by-step flag updates give `AccessFor` |
| `Renderer.ListingMembers` | renderer.php:335-342 | a record is listed exactly when it is in the table and blind marking does not hide it |
| `Renderer.ListRecords` | renderer.php:335-351 | the loop with its `continue` lists exactly `Listing` |
| `Renderer.OfferFor` | renderer.php:357-381 | a blank record is offered exactly when the viewer may grade or edit the final grade, has no record and the item is not disabled; it is final-eligible exactly when there is no first record |
| `Renderer.FinalFlags` | renderer.php:374-396 | final edit ends true when it was allowed or the offer is final-eligible; grading ends allowed when it was (or final edit is) and the item is not disabled |
| `Renderer.DisplayForm` | renderer.php:140-419 | the form's scan, listing, offer, flags and delete button, the last one shown exactly to an admin on an item that is not disabled |
| `Renderer.OfferAndFlags` | renderer.php:357-401 | the offer and the hidden inputs are `OfferFor` and `FinalFlags` |
| `Renderer.ReadOnlyModes` | renderer.php:245-301 | in VIEW, REVIEW and EVAL_FROZEN both flags are true exactly for the owner of the first record |
| `Renderer.SecondGraderAccess` | renderer.php:265-290 | while evaluating, a viewer other than the owner never edits the final grade, and grades exactly when the first record is not Final, `previous` asked for a second grader and the viewer is in the list |
| `Renderer.SubstringListMatch` | renderer.php:151-154 | the list test is a substring test: id 3 is found in "13" |
| `Renderer.OwnerKeepsRights` | renderer.php:296-396 | the owner of the first record may grade and edit the final grade in every mode; grading ends disabled only on a disabled item |
| `Renderer.DisabledAllowsNothing` | renderer.php:357-396 | a locked or overridden item offers no blank record and ends with grading not allowed |
| `Renderer.BlindMarkingShowsOwnOnly` | renderer.php:337-342 | with blind marking, no final edit and a non-Final first record, only the viewer's own record is listed, and it is listed when present |
| `Renderer.NoBlindListsAll` | renderer.php:335-351 | without blind marking every record is listed, in table order |
| `Renderer.DisplayGrade` | renderer.php:429-457 | VIEW shows a record's summary exactly when `show_intermediary_to_students` is set; other modes render the widget |
| `Renderer.VisibilityFlagIgnored` | renderer.php:445-456 | in VIEW what a student sees does not depend on `visible_to_students` |
| `Renderer.CssClassSuffix` | renderer.php:761-775 | the suffix ends with " odd" or " even" by the parity of the index |
| `Renderer.CssFirst` | renderer.php:763-765 | the suffix starts with " first" exactly at index 0 |
| `Renderer.CssLast` | renderer.php:766-768 | " last" sits just before the parity word exactly at the last index |
| `ClientScript.IndexFrom` | js/multigraders.js:149 | the first occurrence of a pattern at or after a position, or none |
| `ClientScript.ReplaceFirst` | js/multigraders.js:149-154 | a string pattern that does not occur leaves the text unchanged |
| `ClientScript.ReplaceFirstAt` | js/multigraders.js:149-154 | only the first occurrence is replaced; the text before and after it is kept |
| `ClientScript.OnlyFirstPlaceholder` | js/multigraders.js:141-150 | an outcome's value replaces only the first `##gi<id>##` of its outcome |
| `ClientScript.LeftoverAt` | js/multigraders.js:152 | a leftover match of `/##gi(\d+)##/i` is at least seven characters long |
| `ClientScript.LeftoverBecomesZero` | js/multigraders.js:152 | a leftover placeholder, after text with no `#`, becomes 0 and the rest is rewritten in the same way |
| `ClientScript.UpperCaseLeftover` | js/multigraders.js:152 | the match ignores case: "##GI7##" becomes "0" |
| `ClientScript.UpdateGrade` | js/multigraders.js:132-167 | nothing changes exactly when the formula is absent or empty; otherwise the title is the formula with its outcome values and 0 for the leftovers, and the value is the as-written grade text of evaluating it without its first "=sum", so a NaN result shows "NaN" |
| `ClientScript.GradeText` | js/multigraders.js:161 | the corrected grade text: '' when evaluation throws, gives null or undefined, or gives NaN; the one-decimal text of a number; no value when `toFixed` throws |
| `ClientScript.GradeTextAsWritten` | js/multigraders.js:155-166 | as written: '' when evaluation throws or gives null or undefined; the one-decimal text of a number; "NaN" for NaN; no value exactly when `toFixed` throws on a non-number |
| `ClientScript.NaNGrade` | js/multigraders.js:161 | the as-written test turns NaN into "NaN", the corrected one into '' |
| `ClientScript.GradeTextsAgree` | js/multigraders.js:161-165 | the two grade texts agree on every result other than NaN |
| `ClientScript.Nl2br` | js/multigraders.js:125-128 | null or undefined gives '' |
| `ClientScript.Nl2brInsertsBeforeEveryBreak` | js/multigraders.js:129-130 | the regular-expression rewrite equals putting `<br />` in front of every `\r\n`, `\n\r`, `\r` or `\n`, keeping the break, even after a `>` |
| `ClientScript.InsertBreakTags` | js/multigraders.js:130 | text without line breaks is unchanged |
| `ClientScript.BreakAfterTagMarked` | js/multigraders.js:130 | "a>\nb" becomes "a><br />\nb" |

## Left out

- HTML output, language strings, `display_outcomes` and the widget part of `display_grade`: presentation only. `DisplayGrade` returns `Widget(record)` there.
- Database calls: the table is the `rows` field and is re-read as a timestamp-ordered array. The parent controller's own tables (`parent::update`, `parent::update_definition`) are not modelled. Among rows with equal timestamps (`time()` has one-second resolution) the database order is unspecified; the model places a newly inserted row after them, which `Records.InsertByTimeNewest` relies on.
- `GradingInstance.Instance.GetGrade`: a blank grade passes validation (lib.php:770) and a Final save then stores the text as the raw grade (lib.php:928), as does a non-numeric `grade_hidden` (lib.php:882-884); `floor` on that text raises a PHP 8 TypeError at lib.php:990. The model converts the text with `FloatVal` when the record is saved, so `GetGrade` returns 0 there instead of failing.
- Message building and `message_send`: only the recipients and the choice of notice are modelled.
- Float formatting and scaling: `number_format`, `toFixed`, `floatval` on non-decimal text and the outcome-to-grade scaling in `updateGrade`. Grades are exact reals. PHP's float-to-string conversion (used when a float is compared with a non-numeric label) is the parameter `floatText`, and `toFixed(1)` is `oneDecimal`.
- `Validation.Validate`: is_numeric is modelled on decimal literals (sign, digits, one point, leading and trailing whitespace). Exponent and hexadecimal forms are not modelled.
- GradeRange.SortLabels: PHP 8's `sort` is modelled as a stable insertion sort. It equals PHP's order whenever the comparison is a total preorder, which holds for all-numeric labels.
- `eval` of the formula: a parameter of `UpdateGrade` returning an `Evaluation`. Infinity is not a separate result.
- JavaScript replacement patterns (`$&`, `$1`) in `updateGrade`: the inserted values are `toFixed(2)` text, which never holds `$`.
- DOM wiring (`M.gradingform_multigraders.init`) and the attribute reads of `updateGrade`: the outcomes reach `UpdateGrade` as (id, value text) pairs.
- `secondary_graders_id_list` defaulting to `Array()` in the controller: `explode` on an array is a PHP 8 error. The model treats an unset list as the empty string.
- `Renderer.InSecondGradersList`: the same `Array()` default reaches `strstr` at renderer.php:151-152, where `isset` holds and PHP 8 raises a TypeError, so `display_form` fails for a definition without its options row. `DisplayForm` treats an unset list as "not in the list" instead.
- `Definition.Prepare`: an unset or non-array `secondary_graders_id_list` makes `implode` raise an error. `HasIdList` is required instead.
- The `criteria` editor value is modelled as its text alone (`Editor(text)`). The format field of the editor array is not modelled.
- The `instanceGrades` cache of `get_instance_grades`: the table is always read fresh from `rows`.
- The debug output (`echo 'in'`, the `log` field, `var_dump` in the out-of-bounds message): the error keeps only the grade.
- The mutations `display_form` makes to record objects (`allowEdit`, `gradingFinal`, `allowCopyingOfDataToFinal`): they appear as the fields of `Shown` and `Offer`.
- `mark_for_regrade`, `get_or_create_instance`, backup, restore, `edit_form.php` and the upgrade steps: outside the state engine.
- Concurrency between graders saving at the same moment is not modelled; each call runs alone.

## Findings

The state methods (`GradingInstance.Instance.Store`, `Definition.UpdateOrCheckDefinition`,
`ClientScript.UpdateGrade`) follow the code as written. Each corrected member
stands beside its as-written one, with the intended property proved about it.

| source | as written | input that shows it | evidently intended | confidence | as-written member | corrected member |
|---|---|---|---|---|---|---|
| lib.php:945-946 | with no first record, `$firstGradeRecord->grader` is null, which differs from the user id, so `send_initial_grader_notification(null)` runs and builds a message for a null recipient | the first save on an item with no records, without a second-grading request, by user 5 | no first-grader notice when there is no first grader | not executed | `Notifications.NullFirstGraderNotice` | `Notifications.NotifyDecision` |
| lib.php:147-177 | the submitted `criteria` is the editor array, but the stored value is its text, so `!=` always finds a change | re-submitting a definition whose criteria are unchanged in the editor | compare the editor's text with the stored text | not executed | `Definition.ResubmittedCriteriaChange` | `Definition.ResubmittedUnchanged` |
| js/multigraders.js:161 | `typeof grade == Math.NaN` compares a type name with undefined and is always false, so a NaN result is shown as "NaN" | a formula that evaluates to NaN, such as "0/0" | treat NaN like a failed evaluation and show '' | not executed | `ClientScript.NaNGrade` | `ClientScript.GradeText` |
