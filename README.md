# Inspection workflow model (digitalq)

A model in Dafny of the core of a quality-inspection web application. An
inspector records measurements against engineering tolerances on one in-memory
inspection report, attaches evidence, roles sign the report off and the
inspector completes it; a report is opened either from the canonical record or
from a draft cached in local storage. The model covers:

- `App.tsx`: the report handlers (`handleUpdateProductDetails`,
  `handleUpdateParameter`, `handleAddParameter`, `handleRemoveParameter`,
  `handleSignOff`, `handleAddEvidence`, `handleAddEvidenceToParameter`,
  `handleRemoveEvidenceFromParameter`, `completeInspection`) as pure
  copy-on-write functions over the `InspectionReport` value (modules
  `Parameters` and `App`), the draft-selection logic of
  `loadInspectionAndCheckForDraft` (`App.LoadInspection`), and the
  `inspectionReport` state cell as the class `App.Session`, whose `Dispatch`
  runs one handler, with a null report staying null.
- `data/db.ts`: the module-level `users` and `inspections` arrays as the class
  `Db.Store` with sequence fields; `createUser` and `scheduleInspection` are
  its modifying methods, the readers are functions over the sequences.
- `components/TaskList.tsx`: add, toggle and delete on the task list (module
  `TaskList`).

Supporting modules: `Wrappers` (Option), `Seqs` (`filter`/`find` with their
properties), `Strings` (decimal rendering of naturals, ECMAScript `trim`, a
lexicographic order for `localeCompare`), `Records` (the entities).

Modelling choices:

- Numbers are exact: measurements and tolerances are `real`, ids `int`.
- `Partial<InspectionParameter>` is `Parameters.ParameterPatch`, one
  `Keep | Put(v)` per field; `{ actual: undefined }` is `actual := Put(None)`.
- `toleranceValue` and a parameter's `evidence` are optional, because the code
  reads them through `?? 0` and `|| []`.
- The clock (`new Date().toISOString()`, `Date.now()`), the confirmation
  dialog, local storage, `JSON.parse` and `generateNewInspectionReport` are
  parameters: a timestamp, a task id, a `keepDraft` boolean, a
  `map<string, string>`, a function from the draft text to `App.ParsedDraft`
  (malformed, null, or a report) and a function
  `(title, inspectorId) -> InspectionReport`.
- The loader's outcome is `App.Loaded`: `Unknown` for the `false` return, and
  `Opened(v)` for the `true` return after `setInspectionReport(v)`. A kept
  draft whose text is `null` parses without throwing, so the loader returns
  true and the session is left with no report (`Opened(None)`).
- `localeCompare` is a lexicographic order on code points, proved total,
  transitive and antisymmetric (`Strings.StrLe`); the descending sort is an
  insertion sort that keeps equal ids in input order, as `Array.prototype.sort`
  does.

Where the intended behaviour and the code differ, the model follows the code:

- A stored draft that is the empty string counts as no draft: the code tests
  `if (draftJSON)`, and the empty string is falsy.
- `status` is PENDING exactly when `actual` is absent only for reports built
  by the forms (`App.WellFormed`, kept by `App.RunKeepsWellFormed` under
  `App.FromForms`). The code itself keeps whatever `status` and `deviation`
  the merge produced when the update neither clears nor carries a
  measurement, and an update may name `status`, `utl` or `ltl` directly.
- After removing the parameter with the largest id, the next addition reuses
  that id (`Parameters.IdReuseScenario`), as the code's max-plus-one rule
  gives.

## Model

| member | source | states |
|---|---|---|
| Parameters.ResolveLimits | App.tsx:134-151 | "+/-" puts the limits `tol` above and below nominal, "+" puts the lower limit at nominal and the upper `tol` above, "-" the upper at nominal and the lower `tol` below; a non-negative tolerance brackets the nominal, a negative one gives an empty band |
| Parameters.Evaluate | App.tsx:158-162 | deviation is actual minus nominal; PASS exactly when ltl ≤ actual ≤ utl, both inclusive, FAIL otherwise, never PENDING |
| Parameters.ToleranceOrZero | App.tsx:136 | a missing tolerance reads as zero, a present one as its value |
| Parameters.Merge | App.tsx:131 | the spread `{ ...p, ...u }`, one `Keep` or `Put` per field; the empty patch gives p back |
| Parameters.MergeIdempotent | App.tsx:131 | merging the same patch twice equals merging it once |
| Parameters.UpdateFields | App.tsx:129-164 | the result is the spread merge except for utl/ltl/deviation/status; limits recomputed from the merged nominal, type and tolerance (missing tolerance = 0) exactly when the update names one of them, else the merged limits; `actual: undefined` gives no deviation and PENDING whatever the prior state; a present actual otherwise gives deviation = actual − nominal and PASS iff within the new limits; with no actual the merged deviation and status stay |
| Parameters.UpdateKeepsConsistent | App.tsx:131-162 | an update that leaves id and derived fields alone takes a parameter whose limits and verdict agree with its inputs to one that still agrees |
| Parameters.UpdateRestoresConsistency | App.tsx:134-162 | from any prior state, an update naming a tolerance input and either clearing or carrying a measurement yields consistent limits and verdict |
| Parameters.NegativeToleranceNeverPasses | App.tsx:137-161 | a consistent parameter with a negative tolerance is never PASS |
| Parameters.EvaluationScenario | App.tsx:134-162 | nominal 10 with "+/-" 0.5: measuring 10.4 gives limits 10.5/9.5, deviation 0.4 and PASS; 10.6 gives deviation 0.6 and FAIL; clearing gives no deviation and PENDING |
| Parameters.MapById | App.tsx:129-166 | same length; each parameter with the id is transformed, every other one is kept in its place |
| Parameters.UpdateParameterIn | App.tsx:129-166 | same length and order; parameters with the id get the field update, all others are unchanged |
| Parameters.UpdateUnknownIdIsNoop | App.tsx:129-166 | updating an id no parameter carries returns the list unchanged |
| Parameters.MaxId | App.tsx:176 | the maximum of the ids of a non-empty list: no id exceeds it and some parameter carries it |
| Parameters.NextId | App.tsx:175-177 | greater than every id present; 1 for an empty list, otherwise one more than an id present |
| Parameters.DefaultParameterConsistent | App.tsx:179-188 | the new parameter carries the given id, is unmeasured and PENDING, and its zero limits agree with its zero tolerance |
| Parameters.DefaultParameter | App.tsx:179-188 | the parameter `handleAddParameter` creates carries the given id and starts unmeasured (no actual, no deviation), PENDING and without evidence; its other fields are "New Parameter", nominal 0, "+/-" tolerance 0 and limits 0 |
| Parameters.AppendParameter | App.tsx:175-192 | exactly one parameter appended at the end, with the default fields and an id different from every existing one; the existing ones unchanged |
| Parameters.AppendKeepsConsistent | App.tsx:179-192 | adding a parameter keeps every parameter of the list consistent |
| Parameters.AddedToEmpty | App.tsx:175-192 | after n additions to an empty list the list has n parameters whose ids are exactly 1..n in order |
| Parameters.AppendKeepsCounting | App.tsx:175-192 | adding to a list numbered 1..k in order gives the new parameter the id k + 1 |
| Parameters.RemoveParameterFrom | App.tsx:201 | keeps only parameters whose id differs, each as often as before |
| Parameters.RemoveParameterKeepsOrder | App.tsx:201 | removal distributes over concatenation, so kept parameters stay in their original order |
| Parameters.RemoveUnknownIdIsNoop | App.tsx:201 | removing an id no parameter carries returns the list unchanged |
| Parameters.RemoveThenAddId | App.tsx:175-201 | after a removal that leaves parameters, the next id is the largest remaining id plus one |
| Parameters.IdReuseScenario | App.tsx:175-201 | two additions give ids 1 and 2; removing 2 keeps only the first; a further addition gets id 2 again |
| Parameters.AppendKeepsDistinctIds | App.tsx:175-192 | adding to a list with pairwise distinct ids keeps them distinct |
| Parameters.RemoveKeepsDistinctIds | App.tsx:201 | removing from a list with pairwise distinct ids keeps them distinct |
| Parameters.SpliceStart | App.tsx:278 | the position `splice` starts at always lies within the list |
| Parameters.RemoveAt | App.tsx:277-278 | an index inside the list deletes exactly that item and shifts the rest down; a negative index counts from the end (clamped to the first item); an index at or past the end leaves the list unchanged |
| Parameters.RemoveAtDeletesOne | App.tsx:278 | the list shrinks by one exactly when it is non-empty and the index is below its length, and then loses one of its items as a multiset |
| Parameters.AddThenRemoveRestores | App.tsx:263-278 | removing the item just appended, by its index or by -1, gives back the earlier list |
| Parameters.AddEvidenceTo | App.tsx:263-264 | only the evidence changes: a missing list counts as empty and the item goes at its end |
| Parameters.RemoveEvidenceFrom | App.tsx:277-279 | only the evidence changes: a missing list counts as empty and one item is spliced out |
| Parameters.AddEvidenceToParameterIn | App.tsx:261-267 | same length; the parameter(s) with the id get the item appended, the others unchanged |
| Parameters.RemoveEvidenceFromParameterIn | App.tsx:275-282 | same length; the parameter(s) with the id lose the item at the index, the others unchanged |
| Parameters.EvidenceOpsTouchOnlyEvidence | App.tsx:258-285 | adding or removing parameter evidence changes no field but `evidence`, so status and deviation stay |
| Parameters.SameButEvidenceKeepsConsistent | App.tsx:258-285 | lists that differ only in evidence are consistent together |
| App.UpdateProductDetails | App.tsx:116-124 | only the product details change: every updated field takes its new value, every other field is kept, no field is lost |
| App.UpdateProductDetailsIdempotent | App.tsx:116-124 | applying the same product-details update twice equals applying it once |
| App.UpdateParameter | App.tsx:126-168 | only the parameter list changes; same length and order; parameters with the id get the field update, the rest are untouched |
| App.AddParameter | App.tsx:171-195 | only the parameter list changes: one default parameter with a fresh id appended, existing ones untouched |
| App.RemoveParameter | App.tsx:197-208 | only the parameter list changes: exactly the parameters with a different id are kept |
| App.SignOff | App.tsx:235-246 | only the signatures change: the role is signed with the given comment and timestamp, overwriting any earlier entry; every other role keeps its signature |
| App.SignOffOverwrites | App.tsx:240-243 | signing twice for a role equals signing once with the later comment and timestamp |
| App.AddEvidence | App.tsx:248-256 | only the report evidence changes: the item is appended at the end |
| App.AddEvidenceToParameter | App.tsx:258-270 | only the parameter list changes, and in it only evidence; the parameter(s) with the id get the item appended to their (possibly missing) list |
| App.RemoveEvidenceFromParameter | App.tsx:272-285 | only the parameter list changes, and in it only evidence; the parameter(s) with the id lose the item at the index under `splice` rules |
| App.CompleteInspection | App.tsx:287-297 | the report becomes complete with the given final status; nothing else changes |
| App.Step | App.tsx:117-118 | a null report stays null and a present one stays present with the same id, for every handler |
| App.ApplyKeepsCompletion | App.tsx:116-297 | completion sets isComplete and the final status; no other handler touches either field |
| App.CompletionIsTerminal | App.tsx:116-297 | once complete with a verdict, a report stays complete with a verdict after any sequence of handlers |
| App.ApplyKeepsSignature | App.tsx:116-297 | no handler removes or unsigns a signed role |
| App.SignaturesAreNeverRevoked | App.tsx:116-297 | a signed role stays signed after any sequence of handlers |
| App.UpdateParameterKeepsWellFormed | App.tsx:126-168 | a form update keeps the report well formed: verdict exactly when complete, all parameters consistent, ids distinct |
| App.AddParameterKeepsWellFormed | App.tsx:171-195 | adding a parameter keeps the report well formed |
| App.ApplyKeepsWellFormed | App.tsx:116-297 | every handler called from the forms keeps the report well formed |
| App.SameButEvidenceKeepsDistinct | App.tsx:258-285 | evidence operations keep parameter ids distinct |
| App.RunKeepsWellFormed | App.tsx:116-297 | any sequence of form handler calls keeps a well-formed report well formed |
| App.DraftKey | App.tsx:24 | the draft key is "inspection_draft_" followed by exactly the report id, so distinct reports have distinct keys |
| App.LoadInspection | App.tsx:21-44 | unknown exactly when the id is unknown; with no (or an empty) draft under the draft key, or a declined draft, or one that fails to parse, the canonical report is opened; an accepted draft that parses to null opens no report (yet counts as opened); one that parses to a report opens that report |
| App.DraftRoundTrip | App.tsx:21-44 | a report stored as a draft and accepted on reopening is opened equal to itself, when the serializer and parser round-trip |
| App.Session.constructor | App.tsx:17 | a session starts with no report |
| App.Session.Open | App.tsx:21-44 | returns true exactly when the id is known, and then holds what draft selection chose, which is no report for a kept draft that parses to null; an unknown id leaves the report as it was |
| App.Session.Dispatch | App.tsx:116-297 | the new report is the handler applied to the old one; a null report stays null |
| Db.UserId | data/db.ts:29 | the id a user created at a position receives: "user-" followed by the position in decimal |
| Db.SeedUsers | data/db.ts:5-10 | the four built-in accounts admin (ADMIN), inspector1 (INSPECTOR), supervisor1 (SUPERVISOR) and inspector2 (INSPECTOR), ids user-0 … user-3, password "password" |
| Db.PositionalIdsAreDistinct | data/db.ts:29 | ids of the form "user-" + position are pairwise distinct |
| Db.SeedUsersValid | data/db.ts:5-10 | the seed users carry ids user-0 … user-3 by position and distinct usernames |
| Db.AuthenticateUser | data/db.ts:20-22 | none exactly when no user has that username and password; otherwise the first user that has both |
| Db.AuthenticateFindsTheAccount | data/db.ts:20-22 | with unique usernames, a user's own credentials find that very user |
| Db.Public | data/db.ts:39 | one user without the password: its id, username and role |
| Db.GetUsers | data/db.ts:38-40 | same length and order; each entry has the user's id, username and role, and no password |
| Db.GetUsersKeepsDistinct | data/db.ts:38-40 | the public view of a valid table keeps ids and usernames unique |
| Db.GetInspectionById | data/db.ts:56-58 | none exactly when no inspection has the id; otherwise the first inspection with that id |
| Db.InsertByIdDesc | data/db.ts:49 | inserting into a list sorted by id descending keeps it sorted and adds exactly that report |
| Db.SortByIdDesc | data/db.ts:53 | a permutation of the input, sorted by id descending |
| Db.GetInspectionsForInspector | data/db.ts:48-50 | sorted by id descending; exactly the inspections scheduled by that inspector, each as often as in the table |
| Db.GetAllInspections | data/db.ts:52-54 | every inspection, as a permutation of the table, sorted by id descending |
| Db.Store.constructor | data/db.ts:5-15 | the seed users and the two generated sample inspections, with the user invariant established |
| Db.Store.CreateUser | data/db.ts:24-36 | a taken username returns none and changes nothing; otherwise one user with id "user-" + old length and the given fields is appended and returned; usernames and positional ids stay unique; inspections untouched |
| Db.Store.ScheduleInspection | data/db.ts:42-46 | appends exactly the generated report, returns that same report, users untouched |
| Strings.NatToString | data/db.ts:29 | the decimal rendering of a natural: non-empty, digits only |
| Strings.NatToStringInjective | data/db.ts:29 | different numbers render differently |
| Strings.PrefixedNatInjective | data/db.ts:29 | a fixed prefix followed by different numbers gives different strings |
| Strings.StrLe | data/db.ts:49 | the order `localeCompare` stands for: lexicographic by code point, so a prefix sorts before or with any extension of it |
| Strings.StrLeTotal | data/db.ts:49 | the order used for `localeCompare` relates any two strings |
| Strings.StrLeTransitive | data/db.ts:49 | the order is transitive |
| Strings.StrLeAntisymmetric | data/db.ts:49 | the order is antisymmetric |
| Strings.IsJsWhitespace | components/TaskList.tsx:38 | the characters `trim` removes: ECMAScript's WhiteSpace and LineTerminator sets |
| Strings.Leading | components/TaskList.tsx:38-41 | the length of the whitespace run the string starts with: all of it whitespace, and the character after it (if any) not |
| Strings.Trim | components/TaskList.tsx:38-41 | the slice of the input that starts after its leading whitespace and is followed only by whitespace, with no whitespace at either end |
| Strings.TrimEmptyIff | components/TaskList.tsx:38 | trimming yields the empty string exactly when the input is all whitespace |
| Strings.TrimIdempotent | components/TaskList.tsx:41 | trimming twice equals trimming once |
| Strings.NoEdgeWhitespaceTrimsToItself | components/TaskList.tsx:41 | a string without whitespace at either end trims to itself |
| Seqs.Filter | App.tsx:201 | no longer than the input; keeps exactly the elements satisfying the predicate, each as often as before |
| Seqs.FilterAppend | App.tsx:201 | filtering distributes over concatenation |
| Seqs.FilterKeepsAll | App.tsx:201 | filtering a list whose every element is kept returns it unchanged |
| Seqs.FilterKeepsPairwise | App.tsx:201 | filtering keeps any pairwise relation that held between elements |
| Seqs.Find | data/db.ts:21 | none exactly when no element matches; otherwise the first match |
| TaskList.AddTask | components/TaskList.tsx:36-46 | all-whitespace input leaves tasks and input as they were; otherwise one task with the trimmed text, the given id and not completed is appended and the input cleared; the new task's text never starts with whitespace |
| TaskList.ToggleTask | components/TaskList.tsx:48-54 | same length, order, ids and texts; `completed` flips for the task(s) with the id only |
| TaskList.ToggleTwiceRestores | components/TaskList.tsx:48-54 | toggling the same id twice restores the list |
| TaskList.DeleteTask | components/TaskList.tsx:56-58 | keeps exactly the tasks with a different id, each as often as before |
| TaskList.DeleteTaskKeepsOrder | components/TaskList.tsx:57 | deletion distributes over concatenation, so the kept tasks stay in order |
| TaskList.DeleteUnknownTaskIsNoop | components/TaskList.tsx:57 | deleting an id no task carries returns the list unchanged |
| TaskList.AddThenDeleteRestores | components/TaskList.tsx:39-57 | deleting a just-added task whose id was fresh gives back the earlier list |

## Left out

- React view machinery: hash-change routing, login role dispatch, logout and leave-room redirects, `renderContent` and themes. They choose which screen to show and hold no rules about the report.
- `components/InspectionRoom.tsx`: it only wires props to child components.
- `handleGenerateGdtImage`: the asynchronous call to the image service and its race with concurrent edits. These are a foreign service and concurrency; its three synchronous `gdtImage` updates are ordinary `App.UpdateParameter` calls.
- Local storage in the task list: loading the saved tasks (a read followed by `JSON.parse`, with its error swallowed) and saving them after every change are effects outside the model; the task list starts from the tasks it is given.
- Local storage writes of the report draft (the write-through after every change). Only the read of the draft is modelled, as a map.
- App.LoadInspection: a draft that parses to a JSON value that is neither null nor a report (a number, a string, an object of another shape) is not represented; `App.ParsedDraft` has only the malformed, null and report outcomes.
- `window.confirm`, `alert` and `console`: the confirmation becomes the `keepDraft` input, and messages are not modelled.
- IEEE-754 rounding: the tolerance and deviation arithmetic is exact over `real`.
- JavaScript ids: parameter and task ids are `int`, not arbitrary numbers (no NaN, no fractions).
- `types.ts` and `constants`: these files are not part of this model. Roles, the final-status enumeration and the evidence fields follow how the workflow code uses them, and `generateNewInspectionReport` is the `generate` parameter.
- Product-details updates that set a field to `undefined` are not modelled. Every update value is a string.
- Db.SortByIdDesc: the sort is stable, but no lemma states that.
- Strings.StrLe: `localeCompare` is locale-dependent collation. The model uses code-point order, a total order that differs from real collation on non-ASCII text and mixed case.
- Passwords are compared in plain text, as the code does. There is no security property to state.
