/**
 * TaskService: creation, lookup, filtering and in-place updates of task
 * records. The task table is a finite map from task id to Task; the status
 * table is the read-only catalog of StatusService.
 */
module TaskStore {
  import opened Results
  import opened Text
  import opened Sets
  import StatusService

  type Status = StatusService.Status

  /** A task record; creation and update timestamps are left to the store. */
  datatype Task = Task(
    id: int,
    description: string,
    user: string,
    status: Status,
    completedAt: Option<int>,
    deletedAt: Option<int>)

  /** The request body of the task endpoints; null strings are None. */
  datatype TaskDto = TaskDto(id: int, description: Option<string>, statusId: int, user: Option<string>)

  /** The status every deleted task is moved to. */
  const DeletedStatusId: int := 4

  /** A string field counts as given when it is neither null nor empty. */
  predicate Given(s: Option<string>)
  {
    s.Some? && s.value != ""
  }

  /** The ids of the stored tasks whose status has the given id. */
  ghost function IdsWithStatus(tasks: map<int, Task>, statusId: int): set<int>
  {
    set k | k in tasks && tasks[k].status.id == statusId
  }

  /** The ids of a list of tasks. */
  ghost function Ids(list: seq<Task>): set<int>
  {
    set i | 0 <= i < |list| :: list[i].id
  }

  lemma IdsAppend(list: seq<Task>, t: Task)
    ensures Ids(list + [t]) == Ids(list) + {t.id}
  {
    var extended := list + [t];
    forall x | x in Ids(extended) ensures x in Ids(list) + {t.id} {
      var i :| 0 <= i < |extended| && extended[i].id == x;
      if i < |list| { assert list[i].id == x; }
    }
    forall x | x in Ids(list) + {t.id} ensures x in Ids(extended) {
      if x == t.id {
        assert extended[|list|].id == x;
      } else {
        var i :| 0 <= i < |list| && list[i].id == x;
        assert extended[i].id == x;
      }
    }
  }

  class TaskService {
    /** The task table, and the next value of its identity column. */
    var tasks: map<int, Task>
    var nextId: int
    /** The status table. */
    const statuses: map<int, Status>

    ghost predicate Valid()
      reads this
    {
      && StatusService.WellFormed(statuses)
      && 0 < nextId
      && forall k :: k in tasks ==> tasks[k].id == k && 0 < k < nextId
    }

    constructor (tasks: map<int, Task>, nextId: int, statuses: map<int, Status>)
      requires StatusService.WellFormed(statuses) && 0 < nextId
      requires forall k :: k in tasks ==> tasks[k].id == k && 0 < k < nextId
      ensures Valid()
      ensures this.tasks == tasks && this.nextId == nextId && this.statuses == statuses
    {
      this.tasks := tasks;
      this.nextId := nextId;
      this.statuses := statuses;
    }

    /** getByID: the stored task, or NoSuchElementException. */
    function GetByID(id: int): (r: Result<Task>)
      reads this
      ensures r.Ok? <==> id in tasks
      ensures r.Ok? ==> r.value == tasks[id]
      ensures Valid() && r.Ok? ==> r.value.id == id
      ensures r.Err? ==> r.error == NoSuchElement
    {
      if id in tasks then Ok(tasks[id]) else Err(NoSuchElement)
    }

    /**
     * getByStatusName: rejects a name that is not a stored status name before
     * any lookup, then returns the stored tasks with that status, each once.
     */
    method GetByStatusName(statusName: string) returns (r: Result<seq<Task>>)
      requires Valid()
      ensures r.Err? <==> ToUpper(statusName) !in StatusService.Names(statuses)
      ensures r.Err? ==> r.error == IllegalArgument(StatusName)
      ensures r.Ok? ==>
        var status := StatusService.FindStatusByName(statuses, statusName).value;
        && (forall i :: 0 <= i < |r.value| ==> r.value[i].id in tasks && tasks[r.value[i].id] == r.value[i])
        && (forall i :: 0 <= i < |r.value| ==> r.value[i].status.id == status.id)
        && (forall i, j :: 0 <= i < j < |r.value| ==> r.value[i].id != r.value[j].id)
        && Ids(r.value) == IdsWithStatus(tasks, status.id)
    {
      var valid := StatusService.IsStatusValid(statuses, ToUpper(statusName));
      if !valid {
        StatusService.PreUpperCasedAgrees(statuses, statusName);
        return Err(IllegalArgument(StatusName));
      }
      StatusService.PreUpperCasedAgrees(statuses, statusName);
      var found := StatusService.FindStatusByName(statuses, statusName);
      assert found.Ok?;
      var status := found.value;
      // The repository's query for the tasks with this status id.
      var result: seq<Task> := [];
      var rest := tasks.Keys;
      while rest != {}
        invariant rest <= tasks.Keys
        invariant forall i :: 0 <= i < |result| ==> result[i].id in tasks.Keys - rest && tasks[result[i].id] == result[i]
        invariant forall i :: 0 <= i < |result| ==> result[i].status.id == status.id
        invariant forall i, j :: 0 <= i < j < |result| ==> result[i].id != result[j].id
        invariant Ids(result) == IdsWithStatus(tasks, status.id) - rest
        decreases rest
      {
        NonEmptyHasInt(rest);
        var k :| k in rest;
        if tasks[k].status.id == status.id {
          IdsAppend(result, tasks[k]);
          result := result + [tasks[k]];
        }
        rest := rest - {k};
      }
      r := Ok(result);
    }

    /**
     * createFromDTO: checks description, then user, then status id, and only
     * then adds a new task built from the request.
     */
    method CreateFromDTO(dto: TaskDto) returns (r: Result<Task>)
      requires Valid()
      modifies this
      ensures Valid()
      ensures !Given(dto.description) ==> r == Err(IllegalArgument(Description))
      ensures Given(dto.description) && !Given(dto.user) ==> r == Err(IllegalArgument(Owner))
      ensures Given(dto.description) && Given(dto.user) && dto.statusId !in statuses ==> r == Err(StatusNotFound)
      ensures r.Ok? <==> Given(dto.description) && Given(dto.user) && dto.statusId in statuses
      ensures r.Err? ==> tasks == old(tasks) && nextId == old(nextId)
      ensures r.Ok? ==>
        && r.value == Task(old(nextId), dto.description.value, dto.user.value, statuses[dto.statusId], None, None)
        && r.value.id !in old(tasks)
        && tasks == old(tasks)[r.value.id := r.value]
        && nextId == old(nextId) + 1
    {
      if !Given(dto.description) {
        return Err(IllegalArgument(Description));
      }
      if !Given(dto.user) {
        return Err(IllegalArgument(Owner));
      }
      var status := StatusService.FindStatusById(statuses, dto.statusId);
      if status.Err? {
        return Err(status.error);
      }
      var task := Task(nextId, dto.description.value, dto.user.value, status.value, None, None);
      tasks := tasks[task.id := task];
      nextId := nextId + 1;
      r := Ok(task);
    }

    /** save: writes the task's row back under its id. */
    method Save(task: Task)
      requires Valid() && task.id in tasks
      modifies this`tasks
      ensures Valid()
      ensures tasks == old(tasks)[task.id := task]
    {
      tasks := tasks[task.id := task];
    }

    /**
     * updateStatus: moves the task to the status with the requested id, or
     * fails with the task and the table untouched.
     */
    method UpdateStatus(task: Task, dto: TaskDto) returns (r: Result<Task>)
      requires Valid() && task.id in tasks
      modifies this`tasks
      ensures Valid()
      ensures r.Err? <==> dto.statusId !in statuses
      ensures r.Err? ==> r.error == StatusNotFound && tasks == old(tasks)
      ensures r.Ok? ==> r.value == task.(status := statuses[dto.statusId]) && tasks == old(tasks)[task.id := r.value]
    {
      var status := StatusService.FindStatusById(statuses, dto.statusId);
      if status.Err? {
        return Err(status.error);
      }
      var updated := task.(status := status.value);
      Save(updated);
      r := Ok(updated);
    }

    /** updateDescription: replaces a task's description with a non-empty one. */
    method UpdateDescription(task: Task, dto: TaskDto) returns (r: Result<Task>)
      requires Valid() && task.id in tasks
      modifies this`tasks
      ensures Valid()
      ensures r.Err? <==> !Given(dto.description)
      ensures r.Err? ==> r.error == IllegalArgument(Description) && tasks == old(tasks)
      ensures r.Ok? ==> r.value == task.(description := dto.description.value) && tasks == old(tasks)[task.id := r.value]
    {
      if !Given(dto.description) {
        return Err(IllegalArgument(Description));
      }
      var updated := task.(description := dto.description.value);
      Save(updated);
      r := Ok(updated);
    }

    /**
     * markAsDeleted: soft delete. The task moves to status 4 and is stamped
     * with the given time; the id of the deleted task is returned.
     */
    method MarkAsDeleted(task: Task, now: int) returns (r: Result<int>)
      requires Valid() && task.id in tasks
      modifies this`tasks
      ensures Valid()
      ensures r.Err? <==> DeletedStatusId !in statuses
      ensures r.Err? ==> r.error == StatusNotFound && tasks == old(tasks)
      ensures r.Ok? ==>
        && r.value == task.id
        && tasks == old(tasks)[task.id := task.(status := statuses[DeletedStatusId], deletedAt := Some(now))]
    {
      var deleted := StatusService.FindStatusById(statuses, DeletedStatusId);
      if deleted.Err? {
        return Err(deleted.error);
      }
      Save(task.(status := deleted.value, deletedAt := Some(now)));
      r := Ok(task.id);
    }
  }

  /** Deleting a task twice is not refused: the second call moves the stamp. */
  method DeleteTwice(service: TaskService, id: int, first: int, second: int)
    returns (r1: Result<int>, r2: Result<int>)
    requires service.Valid() && id in service.tasks
    modifies service
    ensures service.Valid()
    ensures r1.Ok? <==> DeletedStatusId in service.statuses
    ensures r1.Ok? ==> r2.Ok? && id in service.tasks && service.tasks[id].deletedAt == Some(second)
    ensures r1.Ok? ==> service.tasks[id].status.id == DeletedStatusId
    ensures r1.Ok? ==> service.tasks[id].description == old(service.tasks[id].description)
  {
    var task := service.GetByID(id);
    r1 := service.MarkAsDeleted(task.value, first);
    r2 := r1;
    if r1.Ok? {
      task := service.GetByID(id);
      r2 := service.MarkAsDeleted(task.value, second);
    }
  }
}
