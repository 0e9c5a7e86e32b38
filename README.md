# Task scheduler: lifecycle service and request validators

A Dafny model of the core of a small task-scheduling REST API. Clients submit
tasks with an external id (`task_str_id`), a description and an estimate in
minutes. They look tasks up, move them through a three-state status
lifecycle, ask for the next task to process and list the pending tasks.

The model has two parts.

- **The task service** (`src/services/taskService.js`). The store's `tasks`
  table is a class, `TaskService.TaskTable`. It holds the rows as a
  `seq<Task>` and a counter standing for the store's id sequence. Creating a
  task and changing its status are methods on the table. The read-only
  queries are functions of the rows in module `TaskQueries`: lookup by
  external id, the next task to process, and the pending list. Each states
  the filter, ordering and limit its query chain asks of the store. The
  transition table `VALID_TRANSITIONS` and the service's error messages are
  in module `TaskModel`.
- **The request validators** (`src/middleware/validation.js`). They are in
  module `Validation`. A JSON body field is a `JsonValue` with JavaScript's
  truthiness. Each validator returns `Accept` (the request reaches `next()`)
  or `Reject(error, details)` (the 400 body). `ValidateCreateTask` keeps the
  source's step-by-step accumulation of error messages.

Module `Routes` holds one piece of `src/routes/tasks.js`: how an accepted
query string becomes the options of the pending-list query. It is needed to
connect the query validator to the service's defaults.

Two client methods in `TaskService`, `ScenarioShorterFirst` and `ScenarioCompletedStaysOffPending`, run the table through short request sequences (the shorter task is next; a duplicate id is refused; a completed task cannot go back to pending; an unknown id is not found) and check each outcome with assertions. They have no contract of their own.

Modelling choices:

- The store assigns `id`; the model takes the table's counter `nextId`, so
  ids are fresh. `submitted_at` is the `now` parameter of `CreateTask`. The
  store's default status is not visible in the code; the model inserts
  `Pending`, the initial status of the lifecycle.
- Estimates and timestamps of stored tasks are integers. In a request body a
  JSON number is a `real`.
- Where the store may return rows with equal sort keys in any order, the
  model fixes one order. `GetNextTaskToProcess` takes the earliest row
  among equal keys. `GetPendingTasks` takes the order of an insertion sort.
  The contracts only state what holds for every order the store may choose.

## Model

| member | source | states |
|---|---|---|
| `TaskModel.ParseStatus` | src/services/taskService.js:11-15 | a string names a status exactly when it is one of `pending`, `processing`, `completed`, and it reads back as that status |
| `TaskModel.TransitionTable` | src/services/taskService.js:11-15 | a move is in the table iff the two statuses differ and it is not completed→pending; no status may move to itself |
| `TaskModel.AllowsNameIffCanTransition` | src/services/taskService.js:80-81 | the `includes` test on the requested name accepts exactly the names of the statuses the table lists for the current one |
| `TaskModel.NoTerminalStatus` | src/services/taskService.js:11-15 | every status has a legal move, and every status reaches every other within two moves |
| `TaskModel.Message` | src/services/taskService.js:80-83 | the duplicate error's message ends in "already exists" (line 32) and the transition error's message starts with "Invalid status transition", the texts the router looks for |
| `TaskQueries.GetTaskByStrId` | src/services/taskService.js:50-63 | returns a row of the table with the requested `task_str_id`, or None exactly when no row has it |
| `TaskQueries.LookupUnique` | src/services/taskService.js:50-54 | under the unique constraint, the lookup returns the one row with that id |
| `TaskQueries.LookupAfterAppend` | src/services/taskService.js:20-28 | after an insert, a lookup of an existing id is unchanged, and the new id finds the new row |
| `TaskQueries.GetNextTaskToProcess` | src/services/taskService.js:106-122 | the result is a pending row that no pending row precedes in (estimated_time_minutes, submitted_at); None iff no row is pending |
| `TaskQueries.NextTaskKeyIsDetermined` | src/services/taskService.js:110-111 | every pending row that no pending row precedes has the same key as the next task |
| `TaskQueries.ShorterTaskIsNext` | src/services/taskService.js:106-113 | of two pending tasks with estimates 10 and 5, the one with 5 is next |
| `TaskQueries.ParseSortKey` | src/middleware/validation.js:50 | only the names `estimated_time_minutes` and `submitted_at` are sort keys, each reading back as its column |
| `TaskQueries.PendingOf` | src/services/taskService.js:137-140 | the filter `status = 'pending'` keeps every pending row as often as it occurs, and nothing else |
| `TaskQueries.Insert` | src/services/taskService.js:143 | inserting into a sorted list keeps it sorted and adds exactly the one element |
| `TaskQueries.SortTasks` | src/services/taskService.js:143 | the result is sorted by the column in the direction asked and is a permutation of the input |
| `TaskQueries.PrefixKeepsTheFirst` | src/services/taskService.js:146 | cutting a sorted list keeps a sorted part, and each element left out may come after every element kept |
| `TaskQueries.SortedKeys` | src/services/taskService.js:143 | sorted means the column's values do not decrease when ascending and do not increase when descending |
| `TaskQueries.GetPendingTasks` | src/services/taskService.js:131-154 | only pending rows of the table, each at most as often as it is stored; length min(limit, pending count); non-strictly sorted, ascending iff `order` is `asc` |
| `TaskQueries.PendingTasksLeaveOutOnlyLater` | src/services/taskService.js:143-146 | the limit cuts off only the end of the ordering: no pending task left out comes before a returned one |
| `TaskQueries.DefaultOptions` | src/services/taskService.js:131-135 | without options the list is ordered by `submitted_at`, ascending, and cut at 10 |
| `TaskQueries.PendingTasksComplete` | src/services/taskService.js:146 | when the pending tasks fit in the limit, the list holds every one of them |
| `TaskQueries.NextAgreesWithShortestPending` | src/services/taskService.js:106-113 | the next task exists iff the one-element list ordered by estimate is non-empty, and both have the same estimate |
| `TaskService.TaskTable.CreateTask` | src/services/taskService.js:17-41 | a duplicate `task_str_id` fails with AlreadyExists and writes nothing; otherwise exactly one pending row is appended, the result carries its id, `task_str_id` and status, and a lookup finds the new row; lookups of other ids are unchanged |
| `TaskService.TaskTable.UpdateTaskStatus` | src/services/taskService.js:69-97 | unknown id: Success(None), table unchanged; move not in the table: InvalidTransition(current, requested), table unchanged; otherwise only the status of the row with that id changes, to a legal target, and the updated row is returned and found by a lookup |
| `Validation.TrimStartSpec` | src/middleware/validation.js:8 | the result is a suffix that does not start with white space, and everything dropped is white space |
| `Validation.TrimEndSpec` | src/middleware/validation.js:8 | the result is a prefix that does not end with white space, and everything dropped is white space |
| `Validation.TrimmedEmptyIffBlank` | src/middleware/validation.js:8 | `trim().length === 0` holds exactly for strings made of white space only |
| `Validation.StringFieldRule` | src/middleware/validation.js:8-15 | `task_str_id` and `description` pass iff they are strings with a character that is not white space |
| `Validation.EstimateFieldRule` | src/middleware/validation.js:18 | `estimated_time_minutes` passes iff it is a number above zero; zero is rejected |
| `Validation.CreateTaskErrorFields` | src/middleware/validation.js:5-20 | one entry per invalid field and none for a valid one, in the order `task_str_id`, `description`, `estimated_time_minutes`; 0 to 3 entries; empty iff every field is valid |
| `Validation.ValidateCreateTask` | src/middleware/validation.js:2-30 | accepts iff no field is invalid; otherwise rejects with "Validation failed" and the messages of all invalid fields in checking order |
| `Validation.ValidateStatusUpdate` | src/middleware/validation.js:32-44 | accepts exactly the strings `pending`, `processing` and `completed`; any other value, or none, gets the one fixed detail message |
| `Validation.DecimalPositiveIffNonzeroDigit` | src/middleware/validation.js:66 | a digit string parses to a positive integer iff one of its digits is not zero |
| `Validation.ValidateQueryParams` | src/middleware/validation.js:46-74 | accepts iff `sort_by` is absent or a sort column, `order` is absent, `asc` or `desc`, and `limit` is absent or a positive integer; otherwise reports only the first failure in the order sort_by, order, limit |
| `Routes.PendingOptionsFromQuery` | src/routes/tasks.js:53-57 | an accepted query gives a sort column, an order and a positive limit; a given limit is the decimal value of the request's `limit`; a missing parameter becomes `submitted_at`, `asc` or 10 |
| `Routes.GivenLimitIsTheLength` | src/services/taskService.js:146 | with at least as many pending tasks as the request's `limit`, the list is exactly that long |
| `Routes.LimitThreeListsThree` | src/routes/tasks.js:53-57 | `?limit=3` is accepted and, with three or more tasks pending, lists exactly three |
| `Routes.RouteDefaultsAgreeWithService` | src/services/taskService.js:131-135 | a request with no query parameters gets the same list as the service's own defaults |

## Left out

- The store client and its errors: `checkConnection` (the "Database not configured" error), the `23505` and `PGRST116` codes, and any other store failure the service re-throws. The store is the in-memory table, and an operation on it does not fail.
- The connection module, the server start-up and `process.env`. They are process and I/O wiring.
- The HTTP side of the router: status codes, JSON responses, logging and CORS. The router only looks at the service's result and at the message texts that `TaskModel.Message` describes.
- The read-then-write race in `updateTaskStatus`: two concurrent requests can both read `pending` and both move the task. `TaskService.TaskTable.UpdateTaskStatus` is atomic over a sequential table.
- The store's other column checks on insert (types, ranges). The schema is not visible. `TaskService.TaskTable.CreateTask` stores the fields it is given.
- `TaskService.TaskTable.CreateTask`: the id and the submission time come from a counter and a clock parameter, not from the store.
- `TaskQueries.GetPendingTasks`: `sort_by` is one of the two columns the validator admits. The store would also order by any other existing column (`id`, `task_str_id`, `description`, `status`) for a direct caller, and only a name that is not a column gives a store error; neither case is modelled.
- `Validation.ValidateQueryParams`: accepts as `limit` only a non-empty string of decimal digits with a non-zero digit. JavaScript's `isNaN` and `parseInt` also accept surrounding white space, a sign, a fraction (`1.5` passes as 1), an exponent or a hexadecimal prefix. This is stricter than the source. The source also lets through a blank `limit` such as `" "` and the string `"Infinity"`: `parseInt` gives NaN for both, `NaN <= 0` is false, and the service then asks the store for `.limit(NaN)` (src/services/taskService.js:146). The model rejects both. `Routes.PendingOptionsFromQuery` parses the limit the same way.
- Query parameters given more than once (arrays) or as nested objects. A parameter is a string or missing.
- JSON numbers are exact reals, so the model loses double-precision overflow and underflow: `JSON.parse` reads `1e400` as `Infinity` and `1e-400` as `0`; the source then rejects `1e-400` as falsy while the model accepts it. The validator accepts any positive number, including fractions, although its message says "positive integer". The model keeps that behaviour.
- String handling: a string is a sequence of Unicode scalar values, not UTF-16 code units. The white-space set of `trim` is the standard one (Unicode space separators plus tab, vertical tab, form feed, no-break space, byte-order mark and the four line terminators).
