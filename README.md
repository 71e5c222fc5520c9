# Task query and lifecycle engine of a NestJS task tracker

This project is a Dafny model of the task core of a multi-user task tracker
(a NestJS application backed by TypeORM). It covers two files:

- `src/tasks/tasks.service.ts`. This is the task service. It holds the list
  query (owner scoping, status, search and label filters, ordering, and an
  offset/limit window). It also holds the create, update, delete,
  add-labels and remove-labels operations. Two helpers sit under them: the
  status-transition rule (OPEN, then IN_PROGRESS, then DONE, with no way
  back) and the label normalizer, which drops repeated names and keeps the
  first occurrence.
- `src/tasks/tasks.controller.ts`. This is the HTTP boundary. Every handler
  that addresses a task by id first looks the task up and fails with
  NotFound if it is missing. It then checks that the caller owns the task
  and fails with Forbidden otherwise. Only after both checks does it call
  the service.

Layout, one module per component:

| file | module | contents |
|---|---|---|
| `wrappers.dfy` | `Wrappers` | `Option`, `Result`, `Outcome` in place of `undefined` and thrown exceptions |
| `seqs.dfy` | `Seqs` | `NoDuplicates`, and `IndexOf` with JavaScript's `indexOf` semantics |
| `task_status.dfy` | `TaskStatus` | statuses, the lifecycle order, the transition rule |
| `label_set.dfy` | `LabelSet` | labels and the normalizer `GetUniqueLabels` |
| `task_model.dfy` | `TaskModel` | the task aggregate and the create/update request bodies |
| `task_query.dfy` | `TaskQuery` | the filters, the case-insensitive search, the ordering and the window of the list query |
| `tasks_service.dfy` | `TasksService` | the task table (`Lookup`, `Saved`, `Removed`), the specification functions of the operations, and the `TasksService` class |
| `tasks_controller.dfy` | `TasksController`, `TasksScenario` | the ownership guard, the `TasksController` class, and two client scenarios |

The task table is a field `tasks: seq<Task>` of the `TasksService` class.
Rows are kept in insertion order, and `Valid()` says their ids are
distinct. The repository's `save` is an upsert, modelled by `Saved`: the row
with the same id is replaced where it stands, or the task is appended.
`remove` is modelled by `Removed` and `findOne` by `Lookup`. Each
state-changing method states the whole new table in terms of these
functions, and the lemmas beside them say what those functions do. The
controller holds the service as a `const` field and says, for every
handler, how the outcome depends on `Authorize`. `Authorize` combines the
lookup with the ownership guard.

Notes on what the code does:

- Ordering ties are not broken by insertion order. The query orders only by
  the requested column, so `FindAll` promises that the page is a window of
  some arrangement of the matches that is sorted by the key, and nothing
  about the order of tasks with equal keys. `OrderBy` is one such
  arrangement.
- The sort column is not checked against an allow-list here. It is pasted
  into `orderBy` as given, and any validation lives in the query-parameter
  class, which is not part of this model.
- Only the emptiness test trims the search term. The ILIKE pattern is built
  from the untrimmed term.
- The label filter is skipped when the list of names is empty, not only
  when it is absent.
- The search condition is passed to `andWhere` without parentheses, so the
  clause the database sees does not group its OR. `MatchesAsWritten` models
  that clause and `Matches` the grouped one the filters evidently intend;
  the list query of the model uses `Matches` (see "## Findings").
- Every stored task carries each label name at most once. `Valid()` keeps
  this together with distinct ids, and every operation preserves it.

## Model

| member | source | states |
|---|---|---|
| `TaskStatus.IsValidStatusTransition` | src/tasks/tasks.service.ts:103-110 | the `indexOf` comparison over `[OPEN, IN_PROGRESS, DONE]` holds exactly when the new status's rank is at least the current one's |
| `TaskStatus.StatusOrderPosition` | src/tasks/tasks.service.ts:104-109 | each status's position in the lifecycle array is its rank 0, 1, 2 |
| `TaskStatus.IllegalExactlyWhenRegressing` | src/tasks/tasks.service.ts:103-110 | the only illegal moves are IN_PROGRESS→OPEN, DONE→OPEN and DONE→IN_PROGRESS; so OPEN→OPEN and OPEN→DONE are legal |
| `TaskStatus.TransitionIsTotalOrder` | src/tasks/tasks.service.ts:103-110 | staying put is legal, legal moves compose, every pair is legal in some direction, and two distinct statuses in one direction only |
| `Seqs.IndexOf` | src/tasks/tasks.service.ts:109 | `indexOf` gives -1 exactly for an absent element, and otherwise a position holding it with no earlier occurrence |
| `LabelSet.GetUniqueLabels` | src/tasks/tasks.service.ts:112-115 | the normalized labels have no repeated name, and a name is in the output exactly when it is in the input |
| `LabelSet.UniqueLabelsKeepFirstOccurrenceOrder` | src/tasks/tasks.service.ts:113 | the output lists names in the order of their first occurrence in the input (the insertion order of a JavaScript `Set`) |
| `LabelSet.UniqueLabelsOfDistinct` | src/tasks/tasks.service.ts:112-115 | input that has no repeated name comes back unchanged |
| `LabelSet.UniqueLabelsIdempotent` | src/tasks/tasks.service.ts:112-115 | normalizing twice gives what normalizing once gives |
| `TaskQuery.TrimStart` | src/tasks/tasks.service.ts:32 | strips exactly the leading ECMAScript white space: what is left is a suffix that does not start with white space |
| `TaskQuery.TrimEnd` | src/tasks/tasks.service.ts:32 | strips exactly the trailing white space: what is left is a prefix that does not end with white space |
| `TaskQuery.TrimEmptyIffBlank` | src/tasks/tasks.service.ts:32 | `search.trim()` is empty exactly when the term is all white space, so only such terms switch the search filter off |
| `TaskQuery.FoldCase` | src/tasks/tasks.service.ts:33 | folding keeps the length, lower-cases each letter in place, and leaves no upper-case letter |
| `TaskQuery.FoldCaseOfFolded` | src/tasks/tasks.service.ts:33 | text without upper-case letters is already folded |
| `TaskQuery.FoldCaseIdempotent` | src/tasks/tasks.service.ts:33 | folding twice is folding once |
| `TaskQuery.ILikeIgnoresCase` | src/tasks/tasks.service.ts:33 | the ILIKE match does not see case: folding the text, the term or both leaves the answer unchanged |
| `TaskQuery.ContainsSubstringAt` | src/tasks/tasks.service.ts:33 | the `%term%` match holds exactly when the term occurs at some position of the text |
| `TaskQuery.Matching` | src/tasks/tasks.service.ts:23-44 | the filtered list is never longer than the table it filters |
| `TaskQuery.MatchingMembers` | src/tasks/tasks.service.ts:23-44 | with the search OR grouped as intended, a task is among the matches exactly when it is stored, owned by the caller, and passes three filters: the status filter (only when a status is given), the search filter (only when the trimmed term is non-empty; title OR description), and the label filter (only when the list is non-empty; at least one label named in it) |
| `TaskQuery.AsWrittenCoversIntended` | src/tasks/tasks.service.ts:25-43 | without a search term the emitted clause admits exactly the intended matches; with one it admits every intended match, and possibly more |
| `TaskQuery.MatchingAsWritten` | src/tasks/tasks.service.ts:23-44 | the list the emitted clause selects is never longer than the table |
| `TaskQuery.SearchLeaksOtherUsersTasks` | src/tasks/tasks.service.ts:26-33 | with the emitted clause, bob's task whose description holds the term is selected, and counted, for alice; the intended filter selects nothing |
| `TaskQuery.MatchingKeepsOrder` | src/tasks/tasks.service.ts:23-44 | filtering keeps the stored order: it distributes over concatenation |
| `TaskQuery.OrderBy` | src/tasks/tasks.service.ts:46 | the result is sorted by the key in the requested direction and is a permutation of the matches |
| `TaskQuery.Window` | src/tasks/tasks.service.ts:48 | `skip(offset).take(limit)` yields `min(limit, n - offset)` elements (none when offset ≥ n), the k-th being element `offset + k` |
| `TaskQuery.WindowOfSorted` | src/tasks/tasks.service.ts:46-48 | a page of the ordered matches is itself sorted and holds only matches |
| `TasksService.TasksService.FindAll` | src/tasks/tasks.service.ts:23-51 | `total` counts all matching tasks and does not depend on offset or limit; `items` is the window of some arrangement of the matches sorted by the key (tasks with equal keys in any order); every item is a stored task of the caller that passes the filters |
| `TasksService.Lookup` | src/tasks/tasks.service.ts:53-58 | a found task is stored under the requested id; nothing is found exactly when no stored task has that id |
| `TasksService.LookupFindsStored` | src/tasks/tasks.service.ts:53-58 | when ids are distinct, looking up a stored task's id finds that task |
| `TasksService.TasksService.FindOne` | src/tasks/tasks.service.ts:53-58 | returns the stored task with the id, or nothing exactly when there is none |
| `TasksService.Saved` | src/tasks/tasks.service.ts:77 | after `save` the task is stored; every other row is an old row; a task with a new id is appended at the end |
| `TasksService.SavedLookup` | src/tasks/tasks.service.ts:77 | after `save` the task's id finds the saved task, and every other id finds what it found before |
| `TasksService.SavedKeepsIdsDistinct` | src/tasks/tasks.service.ts:77 | `save` never makes two rows share an id |
| `TasksService.Removed` | src/tasks/tasks.service.ts:80-82 | after `remove` the id finds nothing, other ids find what they found before, and no row is new |
| `TasksService.RemovedKeepsIdsDistinct` | src/tasks/tasks.service.ts:81 | `remove` keeps the ids of the table distinct |
| `TasksService.TasksService.DeleteTask` | src/tasks/tasks.service.ts:80-82 | the table afterwards is the old table without the task's id |
| `TasksService.CreatedTask` | src/tasks/tasks.service.ts:60-65 | the created task has the body's title, description and owner, the body's status or OPEN, and the body's labels normalized (no repeats, same names, first-occurrence order), or none |
| `TasksService.TasksService.CreateTask` | src/tasks/tasks.service.ts:60-65 | saves the created task under the fresh id, appended to the table; ids stay distinct and no task repeats a label |
| `TasksService.ApplyUpdate` | src/tasks/tasks.service.ts:67-78 | rejected as a whole exactly when a given status would lower the rank; otherwise id and owner are kept, the rank does not drop, given fields replace the old ones, absent fields keep them, and a given label list is normalized (no repeats, same names, first-occurrence order) and then replaces the old list |
| `TasksService.UpdatesNeverRegress` | src/tasks/tasks.service.ts:67-78 | over any series of updates a task keeps its id and owner and never moves back in its lifecycle |
| `TasksService.TasksService.UpdateTask` | src/tasks/tasks.service.ts:67-78 | the outcome is `ApplyUpdate`; a rejected update leaves the table untouched; a successful one saves the updated task; ids stay distinct and no task repeats a label |
| `TasksService.Excluding` | src/tasks/tasks.service.ts:85-87 | keeps exactly the labels not already on the task, and keeps distinct labels distinct |
| `TasksService.NewLabels` | src/tasks/tasks.service.ts:85-88 | the labels `addLabels` appends are distinct, and are exactly the requested labels the task does not already have |
| `TasksService.AddLabelsUnion` | src/tasks/tasks.service.ts:84-96 | after adding, the task has exactly its old labels plus the requested ones, and no name twice if it had none twice before |
| `TasksService.AddLabelsIdempotent` | src/tasks/tasks.service.ts:84-96 | repeating the same request adds nothing, so the second call saves nothing |
| `TasksService.ExcludingCovered` | src/tasks/tasks.service.ts:87 | nothing is left once every incoming label is already present |
| `TasksService.TasksService.AddLabels` | src/tasks/tasks.service.ts:84-96 | the task's labels become the old list followed by `NewLabels`; the task is saved only if that is non-empty, and otherwise it is returned as it was with the table untouched; no task repeats a label |
| `TasksService.WithoutNames` | src/tasks/tasks.service.ts:99 | keeps exactly the labels whose name is not among the given names, and keeps distinct labels distinct |
| `TasksService.WithoutNamesKeepsOrder` | src/tasks/tasks.service.ts:99 | removal keeps the relative order of the labels it keeps (it distributes over concatenation) |
| `TasksService.WithoutAbsentNames` | src/tasks/tasks.service.ts:99 | names that no label carries change nothing |
| `TasksService.RemoveLabelsIdempotent` | src/tasks/tasks.service.ts:98-101 | removing the same names twice gives the list of removing them once |
| `TasksService.TasksService.RemoveLabels` | src/tasks/tasks.service.ts:98-101 | always saves the task with the named labels removed; no task repeats a label |
| `TasksController.CheckTaskOwnership` | src/tasks/tasks.controller.ts:95-99 | passes exactly when the caller owns the task, and otherwise fails with Forbidden and its fixed message |
| `TasksController.Authorize` | src/tasks/tasks.controller.ts:87-99 | NotFound exactly when no stored task has the id; success only with the stored task of that id owned by the caller; with distinct ids, a stored task under the id gives success to its owner and Forbidden to anyone else |
| `TasksController.AuthorizeSeparatesUsers` | src/tasks/tasks.controller.ts:95-99 | two different users are never both let through to one task |
| `TasksController.TasksController.FindOneOrFail` | src/tasks/tasks.controller.ts:87-93 | NotFound exactly when no stored task has the id; otherwise the stored task |
| `TasksController.TasksController.FindOne` | src/tasks/tasks.controller.ts:34-39 | the outcome is `Authorize`: for the owner it is exactly the stored task |
| `TasksController.WithOwner` | src/tasks/tasks.controller.ts:42-47 | the body keeps its fields and gets the caller as owner, whatever `userId` it carried |
| `TasksController.TasksController.Create` | src/tasks/tasks.controller.ts:41-48 | the stored task belongs to the caller and is appended to the table |
| `TasksController.TasksController.FindAll` | src/tasks/tasks.controller.ts:18-32 | `data` is a window of the matches sorted by the key, with equal keys in any order, `meta.total` the count of all matches, and `offset` and `limit` are echoed back; every task returned is the caller's |
| `TasksController.TasksController.UpdateTask` | src/tasks/tasks.controller.ts:50-62 | NotFound or Forbidden leave the table untouched; a regressing status becomes BadRequest with the table untouched; otherwise the updated task is saved and returned |
| `TasksController.TasksController.DeleteTask` | src/tasks/tasks.controller.ts:64-70 | NotFound or Forbidden leave the table untouched; otherwise the task is removed |
| `TasksController.TasksController.AddLabels` | src/tasks/tasks.controller.ts:72-77 | NotFound or Forbidden leave the table untouched; otherwise the labels are added as the service does |
| `TasksController.TasksController.RemoveLabels` | src/tasks/tasks.controller.ts:79-85 | NotFound or Forbidden leave the table untouched; otherwise the named labels are removed and the task is saved |

## Left out

- The users part of the application is not part of this model: registration, login, JWT signing, password hashing and the user repository. The decorator that reads the caller's id from the request is replaced by a plain `userId` parameter.
- Input validation by the DTO classes is not modelled. The entity and DTO files are not part of this model either: `Task`, `TaskLabel`, `CreateTaskDto`, `UpdateTaskDto`, `FindTaskParams`, `PaginationParams`, and the exception's message. Their fields are taken from how the two core files use them. `description` is modelled as a plain string, and `UpdateTaskDto` as optional title, description, status and labels.
- `async`/`await`, database transactions and concurrent requests are not modelled. Each operation is one step on the table, and two concurrent writers would be last-write-wins.
- Storage failures are not modelled. The service raises only `WrongTaskStatus`, which the controller turns into BadRequest. Rethrowing every other error unchanged therefore has nothing to act on.
- Generated ids and timestamps are not modelled. A new task's id is a parameter that must not be in use yet, and ids are natural numbers rather than UUID strings.
- Labels are compared by name, their only modelled field. The label rows' own ids and foreign keys are not modelled.
- Entities are modelled as values. `Object.assign` and the label assignments change the very object the controller holds, but the model returns the new value instead, so aliasing is not modelled.
- TaskQuery.OrderBy: the sort column is abstracted to an integer key, and how the raw `sortBy` text is put into the SQL is not modelled.
- TaskQuery.Matching: filters with the grouped `Matches`, not with the ungrouped clause the code emits (`MatchingAsWritten`, see "## Findings"). ILIKE's `%` and `_` wildcards and PostgreSQL's default escape character `\` inside the search term are not modelled (a `\` escapes the character after it), and case folding covers ASCII letters only.
- TasksService.TasksService.FindAll: `total` and `items` count and page the grouped `Matching`, not the emitted clause `MatchingAsWritten`, which with a search term can also count and list other users' tasks (see "## Findings").
- TasksController.TasksController.FindAll: `meta.total` and `data` come from the grouped `Matching`, so "every task returned is the caller's" holds of the intended query, not of the emitted clause `MatchingAsWritten` (see "## Findings").
- TasksController.TasksController.FindOne: the labels of the returned task are in the order they were last written in a request. The database loads a task's labels with no ORDER BY, so it may return them in another order, and that order is not modelled. The same holds for `Lookup`, `Authorize` and both `FindAll` methods.
- TaskQuery.MatchingMembers: states the grouped search filter the query evidently intends, not the ungrouped clause the code emits; that clause is `TaskQuery.MatchesAsWritten` (see "## Findings").
- The status of a task created without one is assumed to be OPEN. Neither core file sets it: `createTask` saves the body as given, so the default is the entity's column default, and the entity is not part of this model.
- TaskQuery.Window: TypeORM's own handling of a zero or missing `take`/`skip`, and how it paginates across the label join, are not modelled.

## Findings

| source | as written | input that shows it | evidently intended | confidence | as-written member | corrected member |
|---|---|---|---|---|---|---|
| src/tasks/tasks.service.ts:33 | the title-or-description search condition goes to `andWhere` without parentheses, so the clause reads (owner AND status AND title) OR (description AND labels) | alice lists with search `urgent`; the table holds bob's task with title `x` and description `urgent fix` | the search narrows the caller's own tasks: owner AND status AND (title OR description) AND labels | medium, not executed; rests on the query builder inserting string conditions verbatim | `TaskQuery.SearchLeaksOtherUsersTasks` | `TaskQuery.MatchingMembers` |
