/**
 * The task table, the task-label pivot and the rules the task controller
 * applies to a request before it writes either of them.
 */
module Tasks {
  import opened Wrappers

  type TaskId = nat
  type StatusId = int
  type UserId = int
  type LabelId = int

  /** One row of the tasks table (timestamps are not modelled). */
  datatype Task = Task(
    name: string,
    description: Option<string>,
    statusId: StatusId,
    createdById: UserId,
    assignedToId: Option<UserId>)

  /**
   * One request field as the validator sees it: not sent at all, sent empty
   * (an empty form field reaches the validator as null), or sent with a value.
   */
  datatype Field<+T> = Absent | Null | Given(value: T)

  /** The request body of the create and edit forms. */
  datatype TaskInput = TaskInput(
    name: Field<string>,
    statusId: Field<StatusId>,
    description: Field<string>,
    assignedToId: Field<UserId>,
    labels: Field<seq<Option<LabelId>>>)

  /** The validation failures the two write actions can report, keyed by field. */
  datatype FieldError = NameRequired | NameTaken | StatusRequired

  type Table = map<TaskId, Task>

  /** The task-label pivot: one (task_id, label_id) pair per association. */
  type Pivot = set<(TaskId, LabelId)>

  // ---------------------------------------------------------------------------
  // Validation
  // ---------------------------------------------------------------------------

  /** The characters PHP's trim() removes by default. */
  const TrimmedChars: set<char> := {' ', '\t', '\n', '\r', '\0', '\U{000B}'}

  /** A string that trim() turns into the empty string. */
  predicate Blank(s: string) {
    forall i | 0 <= i < |s| :: s[i] in TrimmedChars
  }

  /** The `required` rule on a string field: present, not null, not blank. */
  predicate FilledName(f: Field<string>) {
    f.Given? && !Blank(f.value)
  }

  /**
   * The `unique:tasks,name[,<except>]` rule: some row other than the excepted
   * id already carries this name.
   */
  predicate NameHeldByOther(tasks: Table, name: string, except: Option<TaskId>) {
    exists id | id in tasks :: tasks[id].name == name && except != Some(id)
  }

  /**
   * The rule set of both write actions. Store passes `except := None`
   * (`unique:tasks`), update passes the edited task's id. `unique` is not
   * run on a name that already failed `required`, so a name carries at most
   * one error. `description`, `assigned_to_id` and `labels` are nullable and
   * their type rules are carried by the types of TaskInput.
   */
  function Validate(tasks: Table, input: TaskInput, except: Option<TaskId>): (errs: set<FieldError>)
    ensures NameRequired in errs <==> !FilledName(input.name)
    ensures NameTaken in errs <==>
              FilledName(input.name) && NameHeldByOther(tasks, input.name.value, except)
    ensures StatusRequired in errs <==> !input.statusId.Given?
    ensures errs == {} ==> input.name.Given? && input.statusId.Given?
  {
    var nameErrors :=
      if !FilledName(input.name) then {NameRequired}
      else if NameHeldByOther(tasks, input.name.value, except) then {NameTaken}
      else {};
    var statusErrors := if input.statusId.Given? then {} else {StatusRequired};
    nameErrors + statusErrors
  }

  // ---------------------------------------------------------------------------
  // Filling a row
  // ---------------------------------------------------------------------------

  /**
   * The column value after fill(): a field absent from the validated data
   * leaves the column as it was, a null field clears it.
   */
  function Assign<T>(current: Option<T>, f: Field<T>): (r: Option<T>)
    ensures f.Absent? ==> r == current
    ensures f.Null? ==> r == None
    ensures f.Given? ==> r == Some(f.value)
  {
    match f
    case Absent => current
    case Null => None
    case Given(v) => Some(v)
  }

  /**
   * fill() with the validated data: name and status are required and always
   * overwritten; description and assignee follow Assign; the creator is not
   * among the validated keys and so cannot change.
   */
  function Fill(t: Task, input: TaskInput): (r: Task)
    requires input.name.Given? && input.statusId.Given?
    ensures r.name == input.name.value && r.statusId == input.statusId.value
    ensures r.createdById == t.createdById
    ensures input.description.Absent? ==> r.description == t.description
    ensures input.description.Null? ==> r.description == None
    ensures input.description.Given? ==> r.description == Some(input.description.value)
    ensures input.assignedToId.Absent? ==> r.assignedToId == t.assignedToId
    ensures input.assignedToId.Null? ==> r.assignedToId == None
    ensures input.assignedToId.Given? ==> r.assignedToId == Some(input.assignedToId.value)
  {
    Task(input.name.value, Assign(t.description, input.description),
         input.statusId.value, t.createdById, Assign(t.assignedToId, input.assignedToId))
  }

  /**
   * The new model made through the current user's tasks relation, before
   * fill(): only the creator is set. Its name and status are placeholders
   * that Fill always overwrites, since both fields are required.
   */
  function Draft(creator: UserId): Task {
    Task("", None, 0, creator, None)
  }

  /** The row Store saves: the draft filled with the validated data. */
  function Created(input: TaskInput, creator: UserId): (t: Task)
    requires input.name.Given? && input.statusId.Given?
    ensures t.createdById == creator
    ensures t.name == input.name.value && t.statusId == input.statusId.value
    ensures t.description == (if input.description.Given? then Some(input.description.value) else None)
    ensures t.assignedToId == (if input.assignedToId.Given? then Some(input.assignedToId.value) else None)
  {
    Fill(Draft(creator), input)
  }

  lemma FillIdempotent(t: Task, input: TaskInput)
    requires input.name.Given? && input.statusId.Given?
    ensures Fill(Fill(t, input), input) == Fill(t, input)
  {
  }

  // ---------------------------------------------------------------------------
  // Labels of a request
  // ---------------------------------------------------------------------------

  /** The label list with its null entries dropped (the `isset` filter). */
  function PresentLabels(xs: seq<Option<LabelId>>): (r: seq<LabelId>)
    ensures forall l :: l in r <==> Some(l) in xs
    ensures |r| <= |xs|
  {
    if xs == [] then []
    else (if xs[0].Some? then [xs[0].value] else []) + PresentLabels(xs[1..])
  }

  /**
   * The labels a write action associates: a missing or null `labels` field
   * is an empty collection, so it yields no labels at all.
   */
  function RequestedLabels(input: TaskInput): (r: seq<LabelId>)
    ensures forall l :: l in r <==> input.labels.Given? && Some(l) in input.labels.value
  {
    if input.labels.Given? then PresentLabels(input.labels.value) else []
  }

  /** The elements of a sequence, as a set. */
  ghost function AsSet<T>(s: seq<T>): set<T> {
    set x | x in s
  }

  // ---------------------------------------------------------------------------
  // The pivot: attach, sync, detach
  // ---------------------------------------------------------------------------

  /** The labels the pivot associates with task t. */
  function LabelsOf(pivot: Pivot, t: TaskId): set<LabelId> {
    set p | p in pivot && p.0 == t :: p.1
  }

  /** The pairs of the pivot that belong to tasks other than t. */
  ghost predicate SameOutside(pivot: Pivot, pivot': Pivot, t: TaskId) {
    forall p: (TaskId, LabelId) | p.0 != t :: p in pivot' <==> p in pivot
  }

  /** Adding a pair (t, l) for every l in ids adds exactly those labels to t. */
  lemma LabelsOfWithPairs(pivot: Pivot, t: TaskId, ids: seq<LabelId>)
    ensures LabelsOf(pivot + set l | l in ids :: (t, l), t) == LabelsOf(pivot, t) + AsSet(ids)
  {
    var added := set l | l in ids :: (t, l);
    forall x | x in AsSet(ids) ensures x in LabelsOf(pivot + added, t) {
      assert (t, x) in added;
    }
  }

  /** attach(ids): add a pair for every given label. */
  function Attach(pivot: Pivot, t: TaskId, ids: seq<LabelId>): (r: Pivot)
    ensures LabelsOf(r, t) == LabelsOf(pivot, t) + AsSet(ids)
    ensures SameOutside(pivot, r, t)
  {
    LabelsOfWithPairs(pivot, t, ids);
    pivot + set l | l in ids :: (t, l)
  }

  /** detach(): remove every pair of task t. */
  function Detach(pivot: Pivot, t: TaskId): (r: Pivot)
    ensures LabelsOf(r, t) == {}
    ensures SameOutside(pivot, r, t)
  {
    set p | p in pivot && p.0 != t
  }

  /**
   * sync(ids): make task t's labels exactly the given ones. Pairs of t whose
   * label is kept stay as they are; pairs of other tasks are untouched.
   */
  function Sync(pivot: Pivot, t: TaskId, ids: seq<LabelId>): (r: Pivot)
    ensures LabelsOf(r, t) == AsSet(ids)
    ensures SameOutside(pivot, r, t)
    ensures forall l | l in ids :: (t, l) in pivot ==> (t, l) in r
  {
    LabelsOfWithPairs(Detach(pivot, t), t, ids);
    Detach(pivot, t) + set l | l in ids :: (t, l)
  }

  /** sync is the same as detaching everything and attaching the new set. */
  lemma SyncIsDetachThenAttach(pivot: Pivot, t: TaskId, ids: seq<LabelId>)
    ensures Sync(pivot, t, ids) == Attach(Detach(pivot, t), t, ids)
  {
  }

  /** Two syncs with the same labels leave the pivot as one does. */
  lemma SyncIdempotent(pivot: Pivot, t: TaskId, ids: seq<LabelId>)
    ensures Sync(Sync(pivot, t, ids), t, ids) == Sync(pivot, t, ids)
  {
  }

  // ---------------------------------------------------------------------------
  // The invariant of the two tables
  // ---------------------------------------------------------------------------

  /** No two distinct tasks share a name. */
  ghost predicate UniqueNames(tasks: Table) {
    forall i, j | i in tasks && j in tasks && i != j :: tasks[i].name != tasks[j].name
  }

  /** Every pivot pair refers to a task that exists. */
  ghost predicate NoDanglingLabels(tasks: Table, pivot: Pivot) {
    forall p | p in pivot :: p.0 in tasks
  }

  /**
   * What every sequence of controller actions keeps: unique names, names
   * that passed `required`, no dangling pivot pairs, and every id below the
   * next auto-increment value.
   */
  ghost predicate Consistent(tasks: Table, pivot: Pivot, nextId: TaskId) {
    && UniqueNames(tasks)
    && NoDanglingLabels(tasks, pivot)
    && (forall id | id in tasks :: id < nextId && !Blank(tasks[id].name))
  }

  /** Store refuses the name of any existing task. */
  lemma StoreRejectsTakenName(tasks: Table, input: TaskInput, id: TaskId)
    requires id in tasks && input.name == Given(tasks[id].name)
    ensures Validate(tasks, input, None) != {}
  {
  }

  /** Update accepts the edited task's own current name. */
  lemma UpdateAcceptsOwnName(tasks: Table, id: TaskId, input: TaskInput)
    requires UniqueNames(tasks) && id in tasks && !Blank(tasks[id].name)
    requires input.name == Given(tasks[id].name)
    ensures NameRequired !in Validate(tasks, input, Some(id))
    ensures NameTaken !in Validate(tasks, input, Some(id))
  {
  }

  /** Update refuses a name held by a different task. */
  lemma UpdateRejectsOthersName(tasks: Table, id: TaskId, other: TaskId, input: TaskInput)
    requires id in tasks && other in tasks && other != id
    requires input.name == Given(tasks[other].name)
    ensures Validate(tasks, input, Some(id)) != {}
  {
  }

  /** A successful Store keeps the invariant. */
  lemma StoreKeepsConsistent(tasks: Table, pivot: Pivot, nextId: TaskId, input: TaskInput, creator: UserId)
    requires Consistent(tasks, pivot, nextId)
    requires Validate(tasks, input, None) == {}
    ensures Consistent(tasks[nextId := Created(input, creator)],
                       Attach(pivot, nextId, RequestedLabels(input)), nextId + 1)
  {
  }

  /** A successful Update keeps the invariant. */
  lemma UpdateKeepsConsistent(tasks: Table, pivot: Pivot, nextId: TaskId, id: TaskId, input: TaskInput)
    requires Consistent(tasks, pivot, nextId) && id in tasks
    requires Validate(tasks, input, Some(id)) == {}
    ensures Consistent(tasks[id := Fill(tasks[id], input)],
                       Sync(pivot, id, RequestedLabels(input)), nextId)
  {
  }

  /** Destroy (detach, then delete) keeps the invariant. */
  lemma DestroyKeepsConsistent(tasks: Table, pivot: Pivot, nextId: TaskId, id: TaskId)
    requires Consistent(tasks, pivot, nextId)
    ensures Consistent(tasks - {id}, Detach(pivot, id), nextId)
  {
  }

  /** Deleting the row without the prior detach could leave dangling pairs. */
  lemma DeleteWithoutDetachDangles(tasks: Table, pivot: Pivot, id: TaskId, l: LabelId)
    requires (id, l) in pivot
    ensures !NoDanglingLabels(tasks - {id}, pivot)
  {
  }

  /**
   * Repeating a successful update with the same request passes validation
   * again (the task now holds the name itself) and changes nothing more.
   */
  lemma UpdateTwiceIsUpdateOnce(tasks: Table, pivot: Pivot, id: TaskId, input: TaskInput)
    requires id in tasks && Validate(tasks, input, Some(id)) == {}
    ensures var tasks' := tasks[id := Fill(tasks[id], input)];
            var pivot' := Sync(pivot, id, RequestedLabels(input));
            && Validate(tasks', input, Some(id)) == {}
            && tasks'[id := Fill(tasks'[id], input)] == tasks'
            && Sync(pivot', id, RequestedLabels(input)) == pivot'
  {
  }
}
