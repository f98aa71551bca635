# easyform submission pipeline in Dafny

This project models the part of the easyform back end that sits in front of
the database, in both of the repository's trees: the CommonJS tree at the root
and the TypeScript tree under `src/` with its compiled copy under `dist/src/`.
It covers four pieces:

- **Validation engine** (`form_validation.dfy`, `sanitize.dfy`, `email_pattern.dfy`):
  - the question list and the answer map, checked fail-fast in the source's order with the source's messages;
  - the type rules for text, e-mail and multiple-choice answers;
  - the e-mail pattern `^[^\s@]+@[^\s@]+\.[^\s@]+$` as a string predicate;
  - the recursive sanitiser.

  One model serves both trees, parameterised by `Variant`; the places where the trees differ are explicit.
- **Submission guard and orchestrator** (`form_service.dfy`). The submissions collection is a class holding a sequence of records. It covers:
  - `checkSubmissionProtection`: the five-minute window, the 30 s gap, three records per session, ten per address, and the in-place bump of the newest record;
  - `submitForm`: validate, guard, sanitise, append, then delete the converted draft on a best-effort basis;
  - `cleanupConvertedDraft`;
  - the paged listing `getFormSubmissions`.
- **Draft lifecycle** (`drafts.dfy`). Drafts are a class holding a map keyed by session id. It covers the upsert, the expiry-aware read, delete, the expiry sweep, the statistics and the last-answered-question derivation.
- **Configuration** (`config.dfy`): `parseNumber`, `parseCorsOrigins`, `parseOrigins` and the default limits.

Shared pieces:

- `js_values.dfy` holds the JavaScript values the services handle (undefined, null, booleans, numbers, strings, arrays, objects as ordered key/value lists) and the property lookups on them.
- `js_strings.dfy` holds `trim`, `split`, `join` and decimal printing.
- `wrappers.dfy` holds `Option`, `Result` and the HTTP error kinds.

Time is an integer number of milliseconds passed in as `now`. A failing database call is a parameter: `fails`, `fault` or `saveFault`.

Four behaviours of the code are easy to misread, and the model states them as the code has them:

- The guard refuses the **fourth** attempt in a window, not the third: it counts the records already stored, and a record is written only after the guard passes (`FormService.FourthSubmissionRefused`).
- The sanitiser is **not** idempotent: `"< a"` becomes `" a"` and then `"a"` (`Sanitize.SanitizeNotIdempotent`). Sanitising twice equals trimming the strings of the once-sanitised value (`Sanitize.SanitizeTwice`).
- The trees disagree on an empty `CORS_ORIGIN`. The CommonJS tree falls back to the development origin; the TypeScript tree allows any origin (`ConfigTs.EmptyCorsOriginDiffers`).
- The address check of the guard runs after the bump. An address refusal keeps the bumped record (`FormService.GuardWritesOnlyTheBump`).

## Model

| member | source | states |
|---|---|---|
| Errors.Status | lib/errors.js:9-25 | 400, 404 and 429 belong to exactly the bad-request, not-found and too-many-requests errors; 500 to the internal ones |
| JsStrings.TrimIdempotent | validation/formValidation.js:135 | trimming a trimmed string changes nothing |
| JsStrings.TrimIsInnerSlice | validation/formValidation.js:135 | `trim` returns a slice of its input with no white space at either end, and every character it cuts off, before or after the slice, is white space |
| JsStrings.Utf16LengthCountsCharacters | validation/formValidation.js:105 | `length` counts UTF-16 code units: it equals the number of characters exactly when no character lies outside the Basic Multilingual Plane |
| JsStrings.Utf16LengthAppend | services/draftService.js:170 | the code-unit length of a concatenation is the sum of the lengths |
| JsStrings.EmojiLength | src/services/draftService.ts:18 | an emoji is one character but has length 2 |
| JsStrings.JoinSplit | config/index.js:16-19 | joining the pieces of `split(',')` with `,` gives the input back |
| JsStrings.SplitPiecesAvoidSeparator | config/index.js:16-19 | `split` gives at least one piece, no piece holds the separator, and a string without the separator is its own single piece |
| JsValues.SchemaString | models/FormSubmission.js:5 | a `String` schema path stores a number or boolean as its JavaScript text and any other value as it is |
| JsValues.FieldLookupFinds | validation/formValidation.js:70-73 | a property lookup finds the first field with the key, and gives undefined when there is none |
| EmailPattern.IsEmailMatchesRegex | validation/formValidation.js:110 | the e-mail predicate holds exactly when the string matches the pattern: a non-empty local part, `@`, and a domain with a dot that has characters on both sides, none of them white space or `@` |
| EmailPattern.EmailHasOneAtAndNoWhitespace | src/validation/formValidation.ts:7 | an accepted address holds exactly one `@` and no white space |
| EmailPattern.EmailExamples | dist/src/validation/formValidation.js:6 | `a@b.co` passes; a missing `@`, a missing dot, and a dot at the very end fail |
| Sanitize.SanitizeInput | validation/formValidation.js:133-147 | the recursive sanitiser, a method that builds each object key by key, computes `Sanitize` |
| Sanitize.SanitizeRemovesAngles | validation/formValidation.js:133-147 | no string anywhere in a sanitised value contains `<` or `>` |
| Sanitize.SanitizeKeepsShape | src/validation/formValidation.ts:15-33 | strings stay strings, arrays keep their length, an object keeps exactly its keys other than `__proto__` (all of them, in order, when it has none called so) and each kept property is the sanitised property, other values come back unchanged |
| Sanitize.SanitizedKeys | validation/formValidation.js:140-143 | a key is among the sanitised object's keys exactly when it is among the input's and is not `__proto__` |
| Sanitize.WithoutProtoKeyMembers | validation/formValidation.js:142 | assigning fields to a fresh object keeps exactly the fields not called `__proto__` |
| Sanitize.WithoutProtoKeySnoc | validation/formValidation.js:141-144 | the fields are kept or dropped one at a time, in order |
| Sanitize.WithoutProtoKeyNone | validation/formValidation.js:141-144 | without a `__proto__` field every field is kept, in order |
| Sanitize.LookupWithoutProtoKey | validation/formValidation.js:142 | any property other than `__proto__` reads the same after the drop |
| Sanitize.LookupSanitizedFields | validation/formValidation.js:141-144 | a property of the rebuilt fields is the sanitised property of the input |
| Sanitize.SanitizeDropsProtoKey | validation/formValidation.js:142 | an own `__proto__` key is not carried into the result, while the other keys are |
| Sanitize.SanitizeStringProperties | dist/src/validation/formValidation.js:12-15 | a sanitised string has no angle brackets and is no longer than the input |
| Sanitize.SanitizeTwice | validation/formValidation.js:133-147 | sanitising twice equals trimming the strings of the once-sanitised value |
| Sanitize.SanitizeNotIdempotent | validation/formValidation.js:135 | `"< a"` sanitises to `" a"` and then to `"a"` |
| Config.DigitPrefix | config/index.js:5 | the leading run of digits: a prefix of the input, all digits, followed by a non-digit or the end |
| Config.ParseNumberReadsPrefix | config/index.js:5-6 | a decimal number followed by a non-digit parses to that number (`'12abc'` gives 12) |
| Config.ParseNumberRoundTrip | config/index.js:1-7 | parsing the decimal text of a natural number gives the number back |
| Config.ParseNumberFallsBack | config/index.js:1-6 | an unset or empty value, or one with no digits after the leading white space and an optional sign (`'abc'`, `'-'`, `'+x'`), gives the fallback |
| Config.DefaultLimits | config/index.js:29-30 | with both variables unset the limits are 50 questions and 1000 characters |
| Config.CommaListProperties | config/index.js:16-19 | every origin in the list is non-empty, trimmed and free of commas; it is the trim of a piece; every non-blank piece's trim is in the list |
| Config.TrimmedNonEmptyProperties | config/index.js:18-19 | the trim-and-filter step keeps exactly the trims of the non-blank pieces |
| Config.TrimmedNonEmptyOne | config/index.js:18-19 | one piece contributes its trim, or nothing when that is empty |
| Config.TrimmedNonEmptyAppend | config/index.js:18-19 | trimming and filtering works piece by piece: the result for two runs of pieces is the two results in order, repeats kept |
| Config.SplitAtFirstComma | config/index.js:17 | the text before the first comma is the first piece, and the rest is the split of what follows |
| Config.CommaListOrder | config/index.js:16-19 | the origin of the text before the first comma, if any, comes first, followed by the origins of the rest in order |
| Config.CommaListWithoutComma | config/index.js:16-19 | a value without a comma becomes the one-element list of its trim |
| Config.CorsOriginDefaults | config/index.js:9-15 | unset and empty values give the development origin in a list; `'*'` gives `'*'` |
| ConfigTs.ParseOriginsCases | src/config/index.ts:23-33 | unset, empty and `'*'` give `'*'`; a value with a comma gives the list the CommonJS tree computes (trimmed non-empty pieces in order, repeats kept), each non-empty, trimmed and free of commas, each the trim of a piece, and every non-blank piece's trim in it; any other value comes back verbatim |
| ConfigTs.CorsOriginDefault | dist/src/config/index.js:15 | with CORS_ORIGIN unset the origin is the development origin as one string |
| ConfigTs.EmptyCorsOriginDiffers | src/config/index.ts:39 | an empty CORS_ORIGIN gives the development origin in the CommonJS tree and `'*'` in the TypeScript tree |
| FormValidation.ParseQuestionTypeNames | src/dto/formSubmission.ts:1-5 | a question type is recognised exactly when it is one of the three names `text`, `email`, `multiple-choice` |
| FormValidation.CheckQuestionMeaning | validation/formValidation.js:35-61 | one question passes exactly when it is an object with a non-empty string id not seen before, a known type, a non-empty title and, for multiple choice, a non-empty options array; a repeated id fails naming that id |
| FormValidation.CheckQuestionsUpToIff | src/validation/formValidation.ts:48-73 | the first n questions pass exactly when each is well formed and their ids are distinct |
| FormValidation.QuestionsAccepted | validation/formValidation.js:20-63 | the question list passes exactly when it is a non-empty array no longer than the maximum whose questions are well formed with distinct ids; the parsed questions are returned |
| FormValidation.DuplicateIdsRejected | dist/src/validation/formValidation.js:29-57 | with well-formed questions the list fails exactly when two ids repeat, and the error names an id held by two of them |
| FormValidation.CheckEachQuestion | src/validation/formValidation.ts:48-73 | the loop that grows the set of seen ids computes the check of every question in order, stopping at the first failure |
| FormValidation.ValidateQuestions | src/validation/formValidation.ts:35-74 | the array, emptiness and length checks followed by the loop compute the question check |
| FormValidation.CheckAnswerByType | validation/formValidation.js:97-125 | an answer passes exactly when its type rule holds: a string no longer than the maximum, a matching address, or one of the options; a non-string fails with "must be a string", except that the CommonJS e-mail rule reports "must be a valid email" |
| FormValidation.CheckEntry | validation/formValidation.js:72-88 | an answer passes exactly when its key is a question id and it is empty (for a non-required question) or passes the type rule; an unknown key fails naming the key |
| FormValidation.FirstFail | src/validation/formValidation.ts:83-105 | the first failure wins: the result passes exactly when every check passes, and a failure is the earliest failing check |
| FormValidation.AnswersAccepted | validation/formValidation.js:65-95 | the answers pass exactly when they are an object, every entry passes and every required question's id is present |
| FormValidation.UnknownKeyRejected | src/validation/formValidation.ts:83-88 | an answer whose key is no question id makes the answers fail |
| FormValidation.UnknownQuestionNamesAnAnswer | dist/src/validation/formValidation.js:65-69 | an unknown-question failure names a key of the answers that is no question id |
| FormValidation.RequiredQuestionNeedsAnswer | validation/formValidation.js:79-81 | a required question that is absent or answered with undefined, null or `''` makes the answers fail |
| FormValidation.ValidAnswersPass | src/validation/formValidation.ts:76-106 | answers whose every key names a question and whose every value is acceptable, covering every required question, pass |
| FormValidation.ValidateAnswers | validation/formValidation.js:65-95 | the two answer loops compute the answer check |
| FormValidation.EmailIfPresent | validation/formValidation.js:127-131 | a falsy `userEmail` passes; otherwise it passes exactly when it matches the pattern, and fails with "Invalid email format" |
| FormValidation.SubmissionAccepted | validation/formValidation.js:10-18 | each tree accepts a submission exactly when it is an object with valid questions, valid answers and a valid or absent e-mail |
| FormValidation.TreesAgree | src/validation/formValidation.ts:9-13 | the two trees accept the same submissions |
| FormValidation.TreesDifferInMessages | validation/formValidation.js:11-13 | the trees report a missing payload, a null question and a non-string e-mail answer with different errors |
| FormValidation.ValidateFormSubmission | dist/src/validation/formValidation.js:7-11 | the validation entry point computes the specification, in the order questions, answers, e-mail |
| Drafts.CheckSessionId | services/draftService.js:169-173 | a session id passes exactly when it is a string of at least ten characters, and otherwise fails with 400 "Invalid session ID format" |
| Drafts.CheckSessionIdTs | src/services/draftService.ts:18-20 | the TypeScript check passes exactly at ten characters or more |
| Drafts.LastAnsweredQuestionMeaning | services/draftService.js:175-186 | the last answered question is absent exactly when every answer is empty, and otherwise is the key of the last non-empty answer |
| Drafts.AnsweredKeysMembers | src/services/draftService.ts:160-167 | a key is among the answered keys exactly when some entry with that key has a non-empty value |
| Drafts.MetadataFor | services/draftService.js:32-35 | `answerCount` counts every answer key, empty ones included |
| Drafts.StepRejection | models/DraftSubmission.js:8 | the schema rejects a step exactly when it is not allowed (NaN or below zero) |
| Drafts.LiveDraft | services/draftService.js:65-83 | a draft is returned exactly when one is stored for the session and expires strictly after now |
| Drafts.ExpiredAt | services/draftService.js:120-122 | the swept drafts are exactly those expiring strictly before now |
| Drafts.CountedKeys | services/draftService.js:136-145 | the drafts the statistics count are the live ones whose stored form id equals the requested one as given (no cast), or all live ones when none is given |
| Drafts.NumericFormIdCountsNoSavedDraft | services/draftService.js:136-141 | a truthy numeric form id counts no saved draft, since saves store the form id as a string and the statistics do not cast |
| Drafts.NewDraft | services/draftService.js:21-43 | a saved draft keeps its id and session id, stores the form id as the schema casts it, is written now and expires seven days later |
| Drafts.DraftIdOfSave | services/draftService.js:21-48 | an upsert keeps the id of the session's stored draft; a new draft gets an id no stored draft has |
| Drafts.UpsertKeepsIdsDistinct | models/DraftSubmission.js:5 | after an upsert no two drafts share an id and every id is below the next one to hand out |
| Drafts.SaveKeepsDraftId | src/services/draftService.ts:21-54 | saving again for the same session reports the same draft id |
| Drafts.RootSaveFault | services/draftService.js:52-58 | a schema validation error becomes a 400 with its message; anything else is a 500 "Failed to save draft" |
| Drafts.TsSaveFault | src/services/draftService.ts:57-64 | a store failure is reported as data: "Failed to save draft" with the error's message |
| Drafts.UpsertedFields | services/draftService.js:21-43 | an upsert touches only the session's draft, which takes every key the update gives and keeps the stored form id, answers, user agent and address where the update leaves them undefined (absent on an insert); an update giving every key replaces the draft |
| Drafts.ResaveWithoutFormIdKeepsCounting | src/services/draftService.ts:28-49 | a re-save without a form id keeps the stored one, so the statistics for that form count the draft while it is live |
| Drafts.DraftStore.Upsert | models/DraftSubmission.js:5 | the upsert applies the update to the one draft of the session, or inserts it, and leaves the others; or changes nothing when the store refuses |
| Drafts.DraftStore.SaveDraft | services/draftService.js:4-59 | an invalid session id or a non-number step is a 400 and writes nothing; otherwise the update is applied to the session's draft (a form id, user agent or address left undefined keeps the stored one), written now, expiring in seven days, with `answers \|\| {}`, and the reply carries its draft id (the stored draft's, or a fresh one) and the time |
| Drafts.DraftStore.SaveDraftTs | src/services/draftService.ts:12-65 | the TypeScript save checks only the session id, applies the update with the answers as given (left undefined, the stored answers stay), replies with the draft id and the time, and reports a store failure as data |
| Drafts.DraftStore.GetDraft | services/draftService.js:61-92 | the read returns the live draft or nothing, a 400 for a bad id, a 500 for a store failure; a returned draft belongs to the requested session |
| Drafts.DraftStore.GetDraftTs | src/services/draftService.ts:67-93 | as the CommonJS read, but a store failure becomes a 404 |
| Drafts.DraftStore.DeleteDraft | services/draftService.js:94-116 | deletion removes the session's draft, even an expired one, and is a 404 when there was none |
| Drafts.DraftStore.DeleteDraftTs | src/services/draftService.ts:95-110 | the same for the TypeScript tree |
| Drafts.DraftStore.CleanupExpiredDrafts | services/draftService.js:118-132 | the sweep deletes exactly the expired drafts and reports their number |
| Drafts.DraftStore.CleanupExpiredDraftsTs | src/services/draftService.ts:112-126 | the same, reporting a failure as zero deleted |
| Drafts.DraftStore.DraftStatistics | services/draftService.js:134-167 | the loop over the drafts yields the count, the oldest and the newest `lastModified` of the counted drafts |
| Drafts.DraftStore.GetDraftStatistics | services/draftService.js:134-167 | the statistics, or a 500 "Failed to get draft statistics" |
| Drafts.DraftStore.GetDraftStatisticsTs | src/services/draftService.ts:128-158 | the statistics, or a plain error with the same text |
| Drafts.TallyComplete | services/draftService.js:136-162 | a tally over all the drafts describes them: the count is the number of counted drafts, and the oldest and newest are attained and bound every counted draft |
| Drafts.StatsOfNothing | services/draftService.js:155-162 | with no counted draft the statistics are zero with no oldest or newest |
| Drafts.SaveThenGet | services/draftService.js:21-83 | a saved draft reads back until it expires with its step, and with its form and answers or, where the save left those undefined, the stored ones; other sessions read as before |
| Drafts.DraftExpiresAfterSevenDays | services/draftService.js:15-29 | a draft saved now is returned one millisecond before seven days have passed and not at seven days |
| Drafts.DeleteThenGet | services/draftService.js:98-107 | after a delete the session has no draft |
| Drafts.SweepIsExact | services/draftService.js:120-127 | after a sweep nothing is expired; a draft expiring exactly now stays stored but is not returned; a live draft reads as before |
| Drafts.SweepCount | services/draftService.js:120-127 | the deleted count and the remaining drafts add up to the drafts before |
| FormService.SessionCount | services/formService.js:71-78 | the number of this session's records in the window is at most the number of records, and zero exactly when there is none |
| FormService.SameKeySameSession | models/FormSubmission.js:35 | two session ids that the schema casts to the same string find the same newest record and the same count |
| FormService.NumericSessionIdIsItsString | services/formService.js:71-78 | a numeric session id is treated as its decimal text by the guard and by the draft clean-up |
| FormService.NoneAmongOthers | services/formService.js:71-78 | among records of other sessions the session has no newest record |
| FormService.NewestIsNewest | services/formService.js:71-78 | the newest record of the session in the window is absent exactly when there is none; otherwise it is of the session, in the window, and no other such record is newer |
| FormService.SessionCheckThresholds | services/formService.js:80-88 | with a record of the session in the window: under 30 000 ms since the newest attempt refuses with the wait message (exactly 30 000 ms passes); otherwise three or more records refuse with the too-many message |
| FormService.GuardWritesOnlyTheBump | services/formService.js:90-96 | the guard writes only the newest record, adding one attempt and stamping it now, and the address refusal keeps the bump |
| FormService.NoRecentNoWrite | src/services/formService.ts:150-158 | with no record of the session in the window the guard writes nothing |
| FormService.BumpKeepsAddressCount | services/formService.js:99-108 | the bump keeps the record in the window, so the address count is the same before and after it |
| FormService.FourthSubmissionRefused | src/services/formService.ts:160-170 | three well-spaced submissions in five minutes pass and the fourth is refused as too many |
| FormService.SubmissionStore.CheckSubmissionProtection | src/services/formService.ts:149-191 | the guard method returns the verdict and leaves the collection that the guard specification states |
| FormService.SubmissionStore.Append | services/formService.js:30-43 | a new record goes at the end and its id is its position |
| FormService.ValidatedPayloadShape | services/formService.js:22-26 | a validated payload has an array of questions and an object of answers, so the `\|\| []` and `\|\| {}` fallbacks never apply |
| FormService.NewRecordFields | src/services/formService.ts:18-39 | the new record holds the payload's form, e-mail and session, questions and answers free of angle brackets, is not a draft, counts one attempt made now, and names its draft only when converting |
| FormService.ValidationFailure | src/services/formService.ts:52-70 | a validation error becomes "Form submission failed" with the message as data in the TypeScript tree, and a 400 with its message in the CommonJS tree |
| FormService.StoreFailure | services/formService.js:45-66 | a failing write is a 400 for a schema validation or cast error and a 500 otherwise in the CommonJS tree, and is reported as data in the TypeScript tree |
| FormService.RejectedPayloadChangesNothing | services/formService.js:16 | a payload the validator refuses writes no record, removes no draft, and gets no id |
| FormService.NoSessionSkipsGuard | services/formService.js:18-20 | without a session id neither the session nor the address check runs, and a valid payload is appended with the next id |
| FormService.GuardRefusalPropagates | src/services/formService.ts:14-16 | a guard refusal is the reply of either tree, and the collection keeps what the guard wrote |
| FormService.SubmittedMeansAppended | services/formService.js:14-67 | an id comes back exactly when one record was appended at that position after a valid payload and a successful write; any other outcome keeps the number of records |
| FormService.AcceptedDraftChange | services/formService.js:45-47 | past validation the drafts change only when the request converts a draft with a truthy session id and the write and the delete both succeed |
| FormService.DraftRemovedOnlyOnConversion | services/formService.js:45-47 | drafts change only when a converted submission succeeds, and then only the session's draft goes, unless its delete failed |
| FormService.AcceptedSameInBothTrees | services/formService.js:18-43 | past validation both trees write the same records and drafts and give an id in the same cases |
| FormService.TreesLeaveSameState | src/services/formService.ts:10-71 | both trees leave the same records and drafts for every request, and both give an id for the same requests |
| FormService.SubmissionStore.SubmitForm | services/formService.js:14-67 | the orchestrating method computes the reply, the records and the drafts that the specification states |
| FormService.CleanupConvertedDraft | services/formService.js:111-117 | the session's draft is deleted, and a failing delete changes nothing and is not reported |
| FormService.ListSpec | services/formService.js:123-129 | a limit outside 1..100 is a 400, then a negative or NaN offset is a 400, then a failing query is a 500 |
| FormService.SortNewestFirstCorrect | services/formService.js:143-144 | the sort orders records by `submittedAt`, newest first, and is a permutation of its input |
| FormService.FilteredExact | services/formService.js:131-139 | the filter keeps exactly the stored records of the requested form and e-mail (compared as the schema casts them), when those are given, each as often as it is stored |
| FormService.SortKeepsLength | services/formService.js:143-144 | sorting keeps the number of records |
| FormService.ListingCorrect | services/formService.js:131-144 | the listing holds every matching record as often as it is stored, no other, newest first |
| FormService.ListingLength | services/formService.js:141-152 | the ordered listing has exactly one entry per matching record, and the filter holds each matching record as often as it is stored |
| FormService.PageProperties | services/formService.js:141-152 | a page holds at most `limit` records, newest first, all matching; `total` counts every match, each record as often as it is stored; the page is the listing from the offset, empty past its end |
| FormService.ConsecutivePages | services/formService.js:144-146 | two consecutive pages of one size make the page of twice that size: paging skips and repeats nothing |
| FormService.SubmissionStore.GetFormSubmissions | services/formService.js:119-157 | the listing method computes the listing specification and changes nothing |

## Left out

- HTTP wiring: the Express routes, CORS and helmet middleware, the transport rate limiter, and how the client address is read from the request. The address reaches the model as a parameter.
- The database: connections, queries and the TTL index that purges expired drafts in the background. A failing call is a boolean or fault parameter. The guard's own queries are taken to succeed.
- Concurrency. The guard's read-then-increment is not atomic in the source, and the listing runs its two queries in parallel. Every operation here is sequential.
- The clock. `new Date()` is the `now` parameter. The seven-day expiry is `now + 604800000`, not calendar arithmetic across daylight-saving changes.
- Number conversions. `Number(limit)` and `Number(offset)` arrive as already-converted numbers. Numbers are whole or NaN or infinite, with no fractions, so fractional limits and offsets are not modelled. `Number(...)` in the TypeScript configuration is not modelled.
- FormService.ListSpec: an offset of `+Infinity` passes the check in the source and is modelled as skipping every record. What the store does with it is not modelled.
- `getFormStatistics`, `getFormSubmissionById`, and the TypeScript tree's `getFormSubmissions`. They are store aggregation, cast errors and a second copy of the listing.
- Statistics averages over drafts (`averageStep`, `averageAnswers`). These are floating-point aggregation.
- Logging, and the success text of replies. "Form submitted successfully" and the saved draft's message are not part of the reply datatypes.
- Fields copied by object spread. `...submissionData` and `...metadata` can carry extra properties into a record. The model keeps only the schema's fields and the request's address and user agent.
- The record id is its position in the collection, and a draft id is a natural number handed out in order, not a database object id; `toString()` of an id is not modelled.
- Config.ParseNumber: the result is the exact integer of the digit prefix. `parseInt` gives a double, which rounds above 2^53 and becomes Infinity for very long digit runs; no limit in this project comes near that.
- JsValues.SchemaString: numbers and booleans are cast to their text. An array or object given where the schema expects a string, which Mongoose refuses with a cast error or reads as a query operator, is kept as it is.
- Sanitize.Sanitize: an own `__proto__` key is dropped. When its value is an object, the source also makes that object the prototype of the result; inherited properties are not modelled.
- String positions: `trim`, `split` and the e-mail pattern work on characters here, while the source works on UTF-16 code units. The results are the same, because white space, `@`, `.` and `,` are single code units. Lengths are counted in code units (`JsStrings.Utf16Length`).
- Drafts.DraftStore.SaveDraftTs: the TypeScript `sessionId` is typed as a string and `currentStep` as a number, so a non-string id, or a missing or non-number step, reaching the store at run time is not modelled.
- Drafts.DraftStore.Upsert: a key left undefined is dropped from the update, so the stored value stays. Older Mongoose versions (5.x) store `null` for such a key instead; that behaviour is not modelled. The `createdAt`/`updatedAt` timestamps are not modelled.
- Drafts.MetadataFor: `Object.keys` and `Object.entries` of a string give one key per character here and one per UTF-16 code unit in the source. For answers given as a string with characters outside the Basic Multilingual Plane, `answerCount` and `lastQuestionAnswered` therefore differ; a Dafny character cannot hold half of a surrogate pair.
- Drafts.DraftStore.DeleteDraftTs: a store failure during the delete is not modelled.
- Equal `submittedAt` and `lastSubmissionAttempt` times are ordered by insertion, earlier first. The store does not specify this order.
- Records always carry `lastSubmissionAttempt`: every record is created with one, and the window query skips records without it. The source's fallback for a missing timestamp is therefore not modelled.
- `in` on an answer object sees the object's own keys and the names inherited from `Object.prototype`. Names inherited from `Array.prototype` when answers is an array are not modelled.
