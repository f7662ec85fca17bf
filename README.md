# Task write path and listing

A Dafny model of the task controller of a Laravel task tracker: the `store`,
`update` and `destroy` actions, which validate a request and then write the
`tasks` table and the `label_task` pivot, and the `index` action, which lists
tasks by exact filters, ascending id and one page at a time.

The database is an object of class `Controller.TaskController` with three
fields: `tasks`, a map from task id to row; `pivot`, the set of
(task_id, label_id) pairs; and `nextId`, the auto-increment counter. Its
invariant `Tasks.Consistent` says:

- no two tasks share a name;
- every stored name passed `required`;
- no pivot pair refers to a missing task;
- every id is below `nextId`.

The three write actions are methods that keep this invariant. Each states its
new state through pure functions (`Validate`, `Created`, `Fill`, `Attach`,
`Sync`, `Detach`), which carry the lemmas. `index` is the function
`Listing.Index` over the table, bounded by the counter.

Laravel and its libraries are modelled by what their calls mean:

- `validate` with `required` and `unique:tasks,name[,id]` becomes
  `Tasks.Validate`. `unique` is skipped when `required` already failed, and
  a blank string is one that PHP's `trim` empties.
- `fill` keeps only the validated keys, so an optional field absent from the
  request stays unchanged and a null one clears the column.
- `attach` adds pairs, `sync` makes the task's labels equal to the given set,
  and `detach()` removes all of the task's pairs.
- Spatie's `AllowedFilter::exact` becomes equality on the column.
- `orderBy('id')->paginate()` slices the id-ordered list into pages of 15.
  A page number below 1 reads as page 1.

Request fields are `Tasks.Field` values: `Absent`, `Null` (an empty form
field reaches the validator as null) or `Given`. The current user is passed
in explicitly. A missing task (route model binding) is `NotFound` for update
and `false` for destroy.

The model follows the code in three places where a reader might expect otherwise:

- The status is only `required`; nothing checks that it exists.
- Only null label entries are dropped (`isset`).
- An update whose `labels` field is missing or null syncs to the empty set,
  so it removes every label. Only description and assignee are left alone
  when absent.

## Model

| member | source | states |
|---|---|---|
| Tasks.Validate | app/Http/Controllers/TaskController.php:49-57 | name fails `required` exactly when missing, null or blank; it fails `unique` exactly when it is filled and held by a task other than the excepted id; status fails exactly when missing; no error implies name and status are given |
| Tasks.StoreRejectsTakenName | app/Http/Controllers/TaskController.php:50 | store's validation refuses any request whose name equals an existing task's name |
| Tasks.UpdateAcceptsOwnName | app/Http/Controllers/TaskController.php:87 | with unique names, updating a task to its own current name raises neither `required` nor `unique` |
| Tasks.UpdateRejectsOthersName | app/Http/Controllers/TaskController.php:87 | update refuses a name that a different task holds |
| Tasks.Fill | app/Http/Controllers/TaskController.php:96-97 | name and status take the request's values and the creator is unchanged; a description or assignee keeps its old value when absent, is cleared when sent as null and takes the sent value otherwise |
| Tasks.FillIdempotent | app/Http/Controllers/TaskController.php:96-97 | filling twice with the same request equals filling once |
| Tasks.Created | app/Http/Controllers/TaskController.php:59-62 | the new row's creator is the current user; name and status come from the request; description and assignee are set only when sent with a value |
| Tasks.PresentLabels | app/Http/Controllers/TaskController.php:64 | a label is kept exactly when it occurs as a non-null entry; nothing is added |
| Tasks.RequestedLabels | app/Http/Controllers/TaskController.php:99 | the labels used are exactly the non-null entries of a sent `labels` list; a missing or null list gives none |
| Tasks.Attach | app/Http/Controllers/TaskController.php:65 | the task's labels grow by exactly the given ones; pairs of other tasks are unchanged |
| Tasks.Sync | app/Http/Controllers/TaskController.php:100 | the task's labels become exactly the given set; kept pairs stay; pairs of other tasks are unchanged |
| Tasks.Detach | app/Http/Controllers/TaskController.php:108 | the task has no labels left; pairs of other tasks are unchanged |
| Tasks.SyncIsDetachThenAttach | app/Http/Controllers/TaskController.php:100 | sync equals detaching all of the task's pairs and then attaching the given labels |
| Tasks.SyncIdempotent | app/Http/Controllers/TaskController.php:100 | syncing twice with the same labels gives the same pivot as syncing once |
| Tasks.StoreKeepsConsistent | app/Http/Controllers/TaskController.php:49-65 | a validated store under the next id keeps names unique, names filled, the pivot free of dangling pairs and ids below the counter |
| Tasks.UpdateKeepsConsistent | app/Http/Controllers/TaskController.php:86-100 | a validated fill plus sync keeps the same invariant |
| Tasks.DestroyKeepsConsistent | app/Http/Controllers/TaskController.php:108-109 | detaching and then deleting the row keeps the same invariant |
| Tasks.DeleteWithoutDetachDangles | app/Http/Controllers/TaskController.php:108-109 | deleting a labelled task without the prior detach would leave a dangling pair |
| Tasks.UpdateTwiceIsUpdateOnce | app/Http/Controllers/TaskController.php:86-100 | after a successful update, the same request validates again, and its fill and sync change nothing |
| Listing.MatchingIds | app/Http/Controllers/TaskController.php:26-32 | the result is strictly ascending and holds exactly the ids in range whose task passes every sent filter |
| Listing.MatchingCount | app/Http/Controllers/TaskController.php:33 | the paginator's total equals the number of matching tasks in the table |
| Listing.CurrentPage | app/Http/Controllers/TaskController.php:33 | the page used is the requested one when it is at least 1, otherwise page 1 |
| Listing.PageSlice | app/Http/Controllers/TaskController.php:33 | a page holds at most 15 items; it holds the next items from position (page-1)*15 on; a page past the end is empty |
| Listing.AscendingRank | app/Http/Controllers/TaskController.php:32 | in id order, exactly k listed ids are smaller than the one at position k |
| Listing.ListedPage | app/Http/Controllers/TaskController.php:26-33 | every id on page p is a matching task whose rank among matching tasks is (p-1)*15 plus its place on the page, and the page ascends |
| Listing.Index | app/Http/Controllers/TaskController.php:21-33 | every listed row is a stored task passing every sent filter; item k of page p is the matching task with exactly (p-1)*15+k smaller matching ids; a page within range is full up to 15 or the remaining matches; a page past the end is empty; total counts all matches; page below 1 reads as 1 |
| Listing.IndexPagesInOrder | app/Http/Controllers/TaskController.php:32-33 | every id on an earlier page of the index is smaller than every id on a later page |
| Listing.IndexListsEveryMatch | app/Http/Controllers/TaskController.php:26-33 | every task that passes the filters is listed on some page |
| Listing.PositionOnPage | app/Http/Controllers/TaskController.php:32-33 | every position k of the listing appears as item k mod 15 of page k div 15 + 1 |
| Listing.IndexPageUnique | app/Http/Controllers/TaskController.php:32-33 | a task listed at positions of two pages of at least 1 is listed on one page only: the two pages are the same |
| Controller.TaskController.Store | app/Http/Controllers/TaskController.php:47-65 | fails exactly on a validation error and then writes nothing; on success, saves the created row under a fresh id by the current user, attaches exactly the non-null labels, advances the counter and keeps the invariant |
| Controller.TaskController.Update | app/Http/Controllers/TaskController.php:84-100 | a missing task is not found; a validation error writes nothing; otherwise fills the validated fields, keeps the creator, syncs the labels to exactly the non-null ones sent, leaves other tasks' pairs alone and keeps the invariant |
| Controller.TaskController.Destroy | app/Http/Controllers/TaskController.php:106-109 | a missing task is not found; otherwise the row is gone, no pair refers to it and other tasks' pairs are unchanged |
| Controller.CreateWriteSpec | app/Http/Controllers/TaskController.php:59-65 | creating "Write spec" with labels [3, 4] leaves that task with exactly the labels {3, 4} |
| Controller.SyncWriteSpec | app/Http/Controllers/TaskController.php:86-100 | updating it under its own name with labels [4, 5, null] succeeds and leaves exactly {4, 5} |
| Controller.DuplicateWriteSpec | app/Http/Controllers/TaskController.php:49-57 | a second task named "Write spec" is refused, and neither the table nor the pivot changes |

## Left out

- Authorization through the resource policy and the session lookup of the current user are not modelled. The user is a parameter of Store.
- Flash messages, translated strings, redirects and the rendered views are not modelled. This covers the `create`, `show` and `edit` actions and the `pluck` lookups of statuses, users and labels for the dropdowns.
- Created and updated timestamps are not modelled, because they need a clock.
- Existence of the referenced status, assignee and labels is not modelled; the code does not validate it.
- Controller.TaskController.Store: does not model a partial write. The action runs no transaction: `save()` writes the row before `attach` runs, so a label id the database rejects leaves a stored task without its labels.
- Controller.TaskController.Update: does not model a partial write either. The row is saved before `sync`, and `sync` may already have detached old labels when an attach of a rejected label id fails.
- The `string`, `integer` and `array` rules are carried by the Dafny types, so a request with a wrongly typed value cannot be expressed. Laravel's acceptance of numeric strings for `integer` is not modelled either.
- Tasks.Validate: compares names by exact string equality. The database collation that `unique` uses, which may ignore case, is not modelled.
- Tasks.Attach: works on a set of pairs, so a label listed twice gives one pair. Eloquent would try to insert a second row.
- The request middleware that trims strings and turns empty strings into null is not modelled. Its effect on empty fields is the `Null` case of `Field`.
- Each filter is modelled as a single value. Spatie's comma-separated lists (where-in), its error on unknown filters and its handling of empty filter values are not modelled.
- The denormalised status, creator and assignee names shown by the index view are not modelled.
- Listing.Index: scans ids below a bound; the controller's `nextId` is such a bound, because `Valid()` keeps every id below it, so the scan covers the whole table. The page size 15 is Eloquent's default, assuming the task model does not override it.
- Tasks.Fill: assumes the Task model's mass-assignable columns are exactly name, description, status_id and assigned_to_id, so the validated `labels` key is not filled. The Task model is not part of this model.
- Tasks.Created: assumes the user's `tasks` relation is keyed by `created_by_id`, so the model it makes has the current user as creator. The User model is not part of this model.
- Concurrency, the database race on name uniqueness and transaction atomicity are not modelled. The model is sequential.
