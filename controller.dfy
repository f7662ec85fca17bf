/**
 * The task controller's write actions over an in-memory store:
 * the tasks table, the task-label pivot and the auto-increment counter.
 */
module Controller {
  import opened Wrappers
  import opened Tasks
  import opened Listing

  /** Why update can fail: no task with that id, or the request failed validation. */
  datatype UpdateError = NotFound | Invalid(errors: set<FieldError>)

  class TaskController {
    var tasks: Table
    var pivot: Pivot
    var nextId: TaskId

    ghost predicate Valid()
      reads this
    {
      Consistent(tasks, pivot, nextId)
    }

    /** An empty database; auto-increment ids start at 1. */
    constructor ()
      ensures Valid()
      ensures tasks == map[] && pivot == {} && nextId == 1
    {
      tasks, pivot, nextId := map[], {}, 1;
    }

    /**
     * store: validate, save a new row created by the current user under a
     * fresh id, then attach the non-null labels of the request. A request
     * that fails validation writes nothing.
     */
    method Store(input: TaskInput, currentUser: UserId) returns (r: Result<TaskId, set<FieldError>>)
      requires Valid()
      modifies this
      ensures Valid()
      ensures r.Failure? <==> Validate(old(tasks), input, None) != {}
      ensures r.Failure? ==> r.error == Validate(old(tasks), input, None)
      ensures r.Failure? ==> tasks == old(tasks) && pivot == old(pivot) && nextId == old(nextId)
      ensures r.Success? ==>
                && r.value == old(nextId) && r.value !in old(tasks)
                && tasks == old(tasks)[r.value := Created(input, currentUser)]
                && pivot == Attach(old(pivot), r.value, RequestedLabels(input))
                && nextId == old(nextId) + 1
      ensures r.Success? ==> tasks[r.value].createdById == currentUser
      ensures r.Success? ==> LabelsOf(pivot, r.value) == AsSet(RequestedLabels(input))
    {
      var errors := Validate(tasks, input, None);
      if errors != {} {
        return Failure(errors);
      }
      StoreKeepsConsistent(tasks, pivot, nextId, input, currentUser);
      var id := nextId;
      assert LabelsOf(pivot, id) == {};
      tasks := tasks[id := Created(input, currentUser)];
      nextId := nextId + 1;
      pivot := Attach(pivot, id, RequestedLabels(input));
      return Success(id);
    }

    /**
     * update: a missing task is not found; otherwise validate with the
     * task's own id excluded from the uniqueness rule, fill and save the
     * validated fields, then sync the labels to the non-null ones sent.
     */
    method Update(id: TaskId, input: TaskInput) returns (r: Result<(), UpdateError>)
      requires Valid()
      modifies this
      ensures Valid()
      ensures id !in old(tasks) ==> r == Failure(NotFound)
      ensures id in old(tasks) && Validate(old(tasks), input, Some(id)) != {} ==>
                r == Failure(Invalid(Validate(old(tasks), input, Some(id))))
      ensures r.Success? <==> id in old(tasks) && Validate(old(tasks), input, Some(id)) == {}
      ensures r.Failure? ==> tasks == old(tasks) && pivot == old(pivot) && nextId == old(nextId)
      ensures r.Success? ==>
                && tasks == old(tasks)[id := Fill(old(tasks)[id], input)]
                && pivot == Sync(old(pivot), id, RequestedLabels(input))
                && nextId == old(nextId)
      ensures r.Success? ==> tasks[id].createdById == old(tasks)[id].createdById
      ensures r.Success? ==> LabelsOf(pivot, id) == AsSet(RequestedLabels(input))
      ensures r.Success? ==> SameOutside(old(pivot), pivot, id)
    {
      if id !in tasks {
        return Failure(NotFound);
      }
      var errors := Validate(tasks, input, Some(id));
      if errors != {} {
        return Failure(Invalid(errors));
      }
      UpdateKeepsConsistent(tasks, pivot, nextId, id, input);
      tasks := tasks[id := Fill(tasks[id], input)];
      pivot := Sync(pivot, id, RequestedLabels(input));
      return Success(());
    }

    /**
     * destroy: a missing task is not found; otherwise detach all its labels
     * and then delete its row.
     */
    method Destroy(id: TaskId) returns (found: bool)
      requires Valid()
      modifies this
      ensures Valid()
      ensures found == (id in old(tasks))
      ensures !found ==> tasks == old(tasks) && pivot == old(pivot)
      ensures found ==> tasks == old(tasks) - {id} && pivot == Detach(old(pivot), id)
      ensures forall p | p in pivot :: p.0 != id
      ensures SameOutside(old(pivot), pivot, id)
      ensures nextId == old(nextId)
    {
      if id !in tasks {
        return false;
      }
      DestroyKeepsConsistent(tasks, pivot, nextId, id);
      pivot := Detach(pivot, id);
      tasks := tasks - {id};
      return true;
    }

    // index is Listing.Index over `tasks`, with `nextId` as the bound on ids.
  }

  /**
   * Create "Write spec" with labels [3, 4], edit it to labels [4, 5, null],
   * then try to create a second task with the same name.
   */
  method WriteSpecScenario() {
    var c := new TaskController();
    CreateWriteSpec(c);
    SyncWriteSpec(c);
    DuplicateWriteSpec(c);
  }

  /** The new task gets exactly the labels {3, 4}. */
  method CreateWriteSpec(c: TaskController)
    requires c.Valid() && c.tasks == map[] && c.nextId == 1
    modifies c
    ensures c.Valid() && c.tasks.Keys == {1} && c.tasks[1].name == "Write spec"
    ensures LabelsOf(c.pivot, 1) == {3, 4}
  {
    var input := TaskInput(Given("Write spec"), Given(1), Absent, Absent, Given([Some(3), Some(4)]));
    assert "Write spec"[0] !in TrimmedChars;
    assert RequestedLabels(input) == [3, 4];
    assert AsSet([3, 4]) == {3, 4};
    var created := c.Store(input, 7);
    assert created == Success(1);
  }

  /** Syncing to [4, 5, null] keeps 4, drops 3 and adds 5; the name may stay. */
  method SyncWriteSpec(c: TaskController)
    requires c.Valid() && c.tasks.Keys == {1} && c.tasks[1].name == "Write spec"
    modifies c
    ensures c.Valid() && c.tasks.Keys == {1} && c.tasks[1].name == "Write spec"
    ensures LabelsOf(c.pivot, 1) == {4, 5}
  {
    var edit := TaskInput(Given("Write spec"), Given(1), Absent, Absent, Given([Some(4), Some(5), None]));
    assert "Write spec"[0] !in TrimmedChars;
    assert RequestedLabels(edit) == [4, 5];
    assert AsSet([4, 5]) == {4, 5};
    UpdateAcceptsOwnName(c.tasks, 1, edit);
    var updated := c.Update(1, edit);
    assert updated.Success?;
  }

  /** A second task named "Write spec" is refused and writes nothing. */
  method DuplicateWriteSpec(c: TaskController)
    requires c.Valid() && 1 in c.tasks && c.tasks[1].name == "Write spec"
    modifies c
    ensures c.tasks == old(c.tasks) && c.pivot == old(c.pivot)
  {
    var again := TaskInput(Given("Write spec"), Given(2), Absent, Absent, Given([Some(6)]));
    assert "Write spec"[0] !in TrimmedChars;
    assert NameHeldByOther(c.tasks, "Write spec", None);
    assert Validate(c.tasks, again, None) == {NameTaken};
    var duplicate := c.Store(again, 8);
    assert duplicate == Failure({NameTaken});
  }
}
