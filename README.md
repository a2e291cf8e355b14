# Study-planner record services, modelled in Dafny

The application keeps its assignments, courses and grades in a hosted
record store. Three adapter services under `src/services/api/` sit in
front of that store's client. Each one offers `getAll`, `getById`,
`create`, `update` and `delete` for one table:

- `assignment_c` for assignments,
- `course_c` for courses,
- `grade_c` for grades. A grade is found by its course id.

The client is opaque, but the logic around it is deterministic. This
project models that logic and proves what it does.

- **Create payloads.** `create` builds its record with JavaScript `||`.
  A column takes its canonical key (`title_c`) when that value is truthy,
  and otherwise its alias (`title`). Some columns fall back to a default:
  assignments store status `"pending"`, and grades derive a
  `Name` from the course id.
- **Update payloads.** `update` starts from `{Id}` and runs a fixed
  list of `if (updates.k !== undefined) updateData.c = ...` lines. The
  model treats this as a fold over an ordered rule list. An imperative
  `for` loop (`FieldMapping.BuildUpdate`) is proved equal to that fold.
  The proofs show that a column is written exactly when one of its keys
  is defined, and that the last defined key wins, so an alias beats its
  canonical key. No other key is written.
- **Reply interpretation.** A reply with a falsy `success` throws its
  `message`. For create and update, the first failed result that carries
  a field error or a message is thrown. Otherwise the first successful
  result's data is returned. Delete returns whether any deletion
  succeeded. With no `results`, the value is `undefined`. `getAll`
  returns `data || []`.
- **Catch block.** An error with a truthy `response.data.message` is
  re-thrown as a new error with that message. Any other error is
  re-thrown unchanged.
- **Grade lookup by course.** The lookup sends exactly one filter,
  `course_id_c EqualTo [courseId]`. It returns the first row and throws
  "Grade not found" when there are no rows. As written, grade update and
  delete throw a TypeError before the lookup (see Findings). The
  corrected members `Grades.Update` and `Grades.Delete` look the grade
  up, then write under the grade's own `Id`.

The JavaScript values the services inspect are modelled explicitly
(`JsValue.Value`), together with truthiness, `!== undefined`, and optional
property reads. `JSON.stringify` and the `${...}` string conversion are
parameters of the model (`JsValue.Builtins`), and nothing is assumed
about them. No client call is performed. Each becomes a `Remote.Request` value
that the operation returns, and the client's answer (`Remote.Reply`: a
response or a rejection) is an argument of the operation. An operation
yields a `Replies.Exchange`: the requests it made, in order, and how it
settled (`Failures.Outcome`).

Modules: `JsValue` (values), `Remote` (requests and replies), `Failures`
(outcomes and the catch block), `Replies` (reply interpretation),
`FieldMapping` (update payload fold and builder), `Records` (the five
operations, written once for any table, since the three services repeat
the same code), and one module per service: `Assignments`, `Courses` and
`Grades`, each holding its table name, fetch columns, create payload and
update columns.

### Behaviour worth noting

- The assignment status is `"pending"` whenever neither `status_c` nor
  `status` is truthy, so an empty string or `null` status is stored as
  `"pending"` too (`Assignments.CreateStatusDefault`).
- In create, the canonical value is kept only when it is truthy. A falsy
  canonical value (`0`, `""`, `false`) is replaced by the alias, even
  when the alias is undefined.
- Create and update resolve a canonical key and its alias differently.
  Create keeps a truthy canonical value. Update keeps the alias whenever
  it is defined (`Assignments.CreateUpdatePrecedenceDiffers`).
- Grade `getById` returns the first row as it is, so a `null` or
  `undefined` first row is returned (`Grades.LookupOutcome`). Missing or
  empty data throws "Grade not found" instead.

## Model

| member | source | states |
|---|---|---|
| Failures.Normalise | src/services/api/assignmentsService.js:35-43 | a truthy `response.data.message` becomes the message of a new error; any other error is kept as it is; the result never carries a nested message |
| Failures.NestedMessage | src/services/api/assignmentsService.js:36 | only an error from the client can carry a nested `response.data.message`; errors the service raises, and client errors that are not objects, carry none |
| Failures.Catch | src/services/api/assignmentsService.js:35-43 | a returned value passes through; a thrown error is replaced by its normalised form |
| Failures.CatchKeepsOwnErrors | src/services/api/assignmentsService.js:35-43 | errors raised by the service pass through the catch block unchanged, and a second catch block changes nothing |
| Replies.WithSuccess | src/services/api/assignmentsService.js:105 | the filter keeps exactly the results whose `success` has the wanted truthiness, each taken from the input |
| Replies.PartitionSizes | src/services/api/assignmentsService.js:105-118 | every result is in exactly one of the failed and successful lists |
| Replies.FirstOfSucceeded | src/services/api/assignmentsService.js:118-119 | the successful list is empty exactly when no result succeeded; its first element is the first successful result in response order |
| Replies.FirstComplaint | src/services/api/assignmentsService.js:110-115 | the `forEach` throw stops at the first failed record that has a complaint; none only when no record has one; never a client error; a delete complaint is always a service error |
| Replies.QuietFailures | src/services/api/assignmentsService.js:105-115 | when no failed result has a field error or a truthy message, the `forEach` throws nothing |
| Replies.FirstLoudFailure | src/services/api/assignmentsService.js:105-115 | the `forEach` over the failed list throws the complaint of the first loud failure in response order |
| Replies.ComplaintOfFailed | src/services/api/assignmentsService.js:105-115 | scanning the failed list finds the first loud failure of the whole result list, and nothing when no failure is loud |
| Replies.FieldError | src/services/api/assignmentsService.js:111-113 | a field error that is present becomes a raised message: its `fieldLabel`, then ": ", then the error converted to text; a null or undefined field error fails with a TypeError on `fieldLabel` |
| Replies.Complaint | src/services/api/assignmentsService.js:110-115 | a failed record with a non-empty `errors` complains with its first field error; otherwise it complains with its message when that is truthy; otherwise it has no complaint |
| Replies.WriteResults | src/services/api/assignmentsService.js:104-120 | create and update results end in a service error or a returned value, never a client error |
| Replies.WriteResultsMeaning | src/services/api/assignmentsService.js:104-120 | the first loud failure is thrown, as `fieldLabel: error` from its first field error or else its message; with no loud failure, the first successful result's data is returned, or undefined when nothing succeeded |
| Replies.DeleteResults | src/services/api/assignmentsService.js:210-223 | delete results end in a raised message or a boolean |
| Replies.DeleteResultsMeaning | src/services/api/assignmentsService.js:210-223 | the first failed deletion with a truthy message is thrown; otherwise the result is true exactly when some deletion succeeded |
| Replies.WriteOutcome | src/services/api/assignmentsService.js:97-129 | a rejection goes through the catch block; a falsy `success` throws `response.message`; missing `results` gives undefined; otherwise the results decide |
| Replies.DeleteOutcome | src/services/api/assignmentsService.js:203-223 | as for writes, with delete's rule on the results; a returned value is undefined or a boolean |
| Replies.ListOutcome | src/services/api/assignmentsService.js:27-43 | an accepted reply always yields a truthy value: `data` when it is truthy, otherwise an empty list; a falsy `success` throws `response.message` |
| Replies.RecordOutcome | src/services/api/assignmentsService.js:62-78 | an accepted reply yields `data` as it is; a falsy `success` throws `response.message` |
| FieldMapping.Step | src/services/api/assignmentsService.js:139 | a line writes its column with the converted value exactly when its key is defined, and changes no other key |
| FieldMapping.ApplyRules | src/services/api/assignmentsService.js:139-156 | running the lines in order only adds keys; no key present before disappears |
| FieldMapping.UpdateData | src/services/api/assignmentsService.js:134-156 | the update payload always holds `Id` and is the column-by-column write of the columns onto `{Id: id}` |
| FieldMapping.ColumnRules | src/services/api/assignmentsService.js:139-140 | a column's lines are one rule per key, in the keys' order, all writing the column |
| FieldMapping.ApplyRulesAppend | src/services/api/assignmentsService.js:139-156 | running two groups of lines in sequence is running them together |
| FieldMapping.LastDefined | src/services/api/assignmentsService.js:139-140 | none exactly when no key of the column is defined; otherwise the value of the last defined key, which is not undefined |
| FieldMapping.ColumnEffect | src/services/api/assignmentsService.js:139-140 | a column's lines leave the payload unchanged when none of its keys is defined, and otherwise set only that column, to the last defined key's converted value |
| FieldMapping.ApplyRulesByColumns | src/services/api/assignmentsService.js:139-156 | the line-by-line run equals the column-by-column run |
| FieldMapping.WriteColumnsKeepsId | src/services/api/assignmentsService.js:134-156 | `Id`, set first and targeted by no line, keeps its value through every line |
| FieldMapping.WriteColumnsKeys | src/services/api/assignmentsService.js:139-156 | the lines add no key other than the columns they target |
| FieldMapping.WriteColumnsAt | src/services/api/assignmentsService.js:139-156 | with distinct columns, a column is present exactly when one of its keys is defined, and then holds its last defined key's converted value |
| FieldMapping.UpdateDataMeaning | src/services/api/assignmentsService.js:134-156 | the update payload holds `Id` and exactly the columns some key of which is defined, each with its last defined key's converted value, and nothing else |
| FieldMapping.ColumnsOverride | src/services/api/assignmentsService.js:139-156 | a one-key column is written exactly when its key is defined; in a canonical-then-alias column the alias wins when both are defined and the canonical value is used only when the alias is undefined; only `Id` and the columns appear |
| FieldMapping.SameColumnValuesSameWrite | src/services/api/assignmentsService.js:139-156 | updates that agree on each column's last defined key give the same columns |
| FieldMapping.SameColumnValuesSameUpdate | src/services/api/assignmentsService.js:134-156 | updates that agree on each column's last defined key give the same payload |
| FieldMapping.AliasOnlyUpdate | src/services/api/assignmentsService.js:134-156 | an update that gives only aliases gives the same payload as the update giving the same values under the canonical keys |
| FieldMapping.BuildUpdate | src/services/api/assignmentsService.js:134-156 | the loop that starts from `{Id}` and runs every line in order builds exactly the folded update payload |
| Records.GetAll | src/services/api/assignmentsService.js:11-44 | one fetch of the table's columns without a filter; an accepted reply returns a truthy value, and the list rule decides the outcome (the same code is at coursesService.js:11-42 and gradesService.js:11-41) |
| Records.GetById | src/services/api/assignmentsService.js:46-79 | one lookup by the integer id; an accepted reply returns its data unchecked (the same code is at coursesService.js:44-75) |
| Records.Create | src/services/api/assignmentsService.js:81-130 | one create request holding the given record; the write rule decides the outcome (the same code is at coursesService.js:77-124 and gradesService.js:86-132) |
| Records.Update | src/services/api/assignmentsService.js:132-195 | the loop-built payload equals the folded update payload, sent as one update request; the write rule decides the outcome (the same code is at coursesService.js:126-185) |
| Records.Delete | src/services/api/assignmentsService.js:197-223 | one delete request for the given id; the returned value is undefined or a boolean (the same code is at coursesService.js:187-212) |
| Assignments.Row | src/services/api/assignmentsService.js:84-94 | the assignment record holds exactly the nine columns, each with the given value |
| Assignments.CreateData | src/services/api/assignmentsService.js:84-94 | exactly the nine columns; `Name` is the first truthy of `Name` and `title`, else `title_c`; each other column is its canonical value when truthy, else its alias; status is `"pending"` when neither status key is truthy |
| Assignments.CreateStatusDefault | src/services/api/assignmentsService.js:91 | the stored status is always truthy; it is `"pending"` when neither status key is truthy and the canonical status when that is truthy |
| Assignments.CreateEssayExample | src/services/api/assignmentsService.js:85-91 | `{title: "Essay", courseId: 5, status: undefined}` is stored with `Name` and `title_c` "Essay", course 5 and status "pending" |
| Assignments.ColumnsWellFormed | src/services/api/assignmentsService.js:139-156 | the update columns are distinct, never `Id`, each a canonical key and one alias, in the fetch field order; the canonical key is the column's own name |
| Assignments.UpdatePayloadRule | src/services/api/assignmentsService.js:134-156 | `Id` is the integer id; only `Id` and the nine columns appear; each column is present exactly when its key or alias is defined, and the alias wins |
| Assignments.UpdateTitleWritesBoth | src/services/api/assignmentsService.js:139-144 | a defined `title` is stored as both `Name` and `title_c`, overriding explicit values of those keys |
| Assignments.AliasOnlyUpdateMatchesCanonical | src/services/api/assignmentsService.js:139-156 | an alias-only update stores what the canonical-key update with the same values stores |
| Assignments.CreateUpdatePrecedenceDiffers | src/services/api/assignmentsService.js:91 | with `status_c` "done" and `status` "late", create stores "done" and update stores "late" |
| Courses.CreateData | src/services/api/coursesService.js:80-88 | exactly the seven columns; each is its canonical value when truthy, else its alias; schedule and grade categories are the stringified choice |
| Courses.Row | src/services/api/coursesService.js:80-88 | the course record holds exactly the seven columns, each with the given value |
| Courses.StructuredColumnsAgree | src/services/api/coursesService.js:85-87 | with only truthy canonical schedule and categories given, create and update store the same stringified values |
| Courses.ColumnsWellFormed | src/services/api/coursesService.js:133-146 | the update columns are distinct, never `Id`, each a canonical key and one alias, in the fetch field order; the canonical key is the column's own name |
| Courses.UpdatePayloadRule | src/services/api/coursesService.js:128-146 | `Id` is the integer id; only `Id` and the seven columns appear; aliases win; exactly schedule and grade categories are stringified |
| Courses.AliasOnlyUpdateMatchesCanonical | src/services/api/coursesService.js:133-146 | an alias-only update stores what the canonical-key update with the same values stores |
| Grades.CourseFilter | src/services/api/gradesService.js:54-60 | the filter is on `course_id_c` with `EqualTo` and the single value of the course id |
| Grades.Length | src/services/api/gradesService.js:70 | `length` is the element count of an array and the character count of a string, and undefined on null, undefined, booleans and numbers |
| Grades.NoRows | src/services/api/gradesService.js:70 | null or undefined data counts as no rows; array or string data counts as no rows exactly when it is empty |
| Grades.First | src/services/api/gradesService.js:74 | `data[0]` is the first element of a non-empty array and the first character of a non-empty string; it is undefined on an empty array or string and on nullish, boolean and number values |
| Grades.LookupOutcome | src/services/api/gradesService.js:63-83 | a falsy `success` throws its message; missing or empty data throws "Grade not found"; otherwise the first row is returned, and only for an accepted reply with truthy data |
| Grades.LookupRows | src/services/api/gradesService.js:70-74 | for array data, "Grade not found" exactly when there are no rows, else the first row; null or missing data is "Grade not found" |
| Grades.GetById | src/services/api/gradesService.js:43-84 | one fetch with exactly one filter, `course_id_c EqualTo [courseId]` |
| Grades.CreateData | src/services/api/gradesService.js:88-97 | exactly the six columns; `Name` is the given name when truthy, else "Grade for Course " and the stored course id, so it is always truthy; categories and assignments are the stringified choice; other columns canonical else alias |
| Grades.Row | src/services/api/gradesService.js:89-96 | the grade record holds exactly the six columns, each with the given value |
| Grades.ColumnsWellFormed | src/services/api/gradesService.js:147-157 | the update columns are distinct, never `Id`, `Name` alone and the others a canonical key and one alias, in the fetch field order; the first key is the column's own name |
| Grades.UpdatePayloadRule | src/services/api/gradesService.js:142-157 | `Id` is the given grade id; only `Id` and the six columns appear; `Name` is written exactly when defined; aliases win; exactly categories and assignments are stringified |
| Grades.AliasOnlyUpdateMatchesCanonical | src/services/api/gradesService.js:148-157 | an alias-only update stores what the canonical-key update with the same values stores |
| Grades.UpdateAsWritten | src/services/api/gradesService.js:134-140 | reading `this.getById` throws a TypeError; no client call is made |
| Grades.DeleteAsWritten | src/services/api/gradesService.js:198-204 | reading `this.getById` throws a TypeError; no client call is made |
| Grades.Update | src/services/api/gradesService.js:134-196 | the lookup comes first; its error is passed on; a falsy grade throws "Grade not found"; otherwise one update request keyed by the grade's own `Id`, and the write rule decides the outcome |
| Grades.Delete | src/services/api/gradesService.js:198-239 | the lookup comes first; its error is passed on; a falsy grade throws "Grade not found"; otherwise `RecordIds` is the grade's own `Id`, and the delete rule decides the outcome |
| Grades.MissingGradeStopsDelete | src/services/api/gradesService.js:201-204 | a course without grade rows makes delete throw "Grade not found" after the lookup alone |
| Grades.ThisLookupFails | src/services/api/gradesService.js:201 | for a course whose grade `{Id: 7}` exists, the corrected delete sends a delete for record 7 and returns true, while delete and update as written throw a TypeError and send nothing |

## Left out

- The client's construction and its project id and key, read from the
  environment (lines 1-6 of each service). This is external configuration.
- The client calls themselves. Each is recorded as a request value and
  its reply is an input. No store behaviour is modelled, so nothing is
  said about records fetched after a create.
- `async`/`await`. Every operation awaits at most two calls in sequence,
  so there is no concurrency.
- `console.error` logging. This includes the `JSON.stringify` of failed
  results inside the log messages. A stringify that throws there (on a
  cyclic value, say) is not modelled.
- The behaviour of `JSON.stringify` and of `${...}` conversion. Both are
  uninterpreted parameters, so the model says nothing about whether a
  stored schedule parses back to the same object.
- `parseInt`: ids and course ids are taken as integers. `NaN` and
  fractional numbers are not modelled.
- Replies whose shape would make the service throw a TypeError are not
  modelled. This covers a null response, a truthy `results` that is not
  an array, a null entry in `results`, and an `errors` that is neither an
  array nor nullish. A field error that is null or undefined is modelled:
  reading its `fieldLabel` fails.
- A null or undefined payload argument, on which the services throw a
  TypeError. Payload arguments are always plain objects here.
- Property reads on values other than plain objects yield undefined in the
  model (`JsValue.Member`, `Grades.First`, `Grades.Length`), except
  `length` and index 0 of arrays and strings. Prototype properties are not
  modelled.

## Findings

| source | as written | input that shows it | evidently intended | confidence | as-written member | corrected member |
|---|---|---|---|---|---|---|
| src/services/api/gradesService.js:137 | `update` calls `this.getById(courseId)` inside an arrow function at module level, where `this` is undefined, so it throws a TypeError before any client call | `gradesService.update(3, {currentGrade: 90})` for a course whose grade row exists | look the grade up with the service's own `getById`, then update it under its `Id` | high; not executed | Grades.UpdateAsWritten | Grades.Update |
| src/services/api/gradesService.js:201 | `delete` calls `this.getById(courseId)` the same way, and throws the same TypeError | `gradesService.delete(3)` for a course whose grade `{Id: 7}` exists | look the grade up, then send a delete for record 7 and return true | high; not executed | Grades.DeleteAsWritten | Grades.Delete |
