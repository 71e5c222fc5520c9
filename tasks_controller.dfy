/** The HTTP handlers for tasks: each id-addressed handler looks the task up
    (NotFound), checks that the caller owns it (Forbidden), and only then
    calls the service. The caller's id is passed in as a plain parameter. */
module TasksController {
  import opened Wrappers
  import opened TaskStatus
  import opened LabelSet
  import opened TaskModel
  import opened TaskQuery
  import opened TasksService

  /** The errors a client sees; a rejected status change arrives as a bad
      request that carries the service's error. */
  datatype ApiError = NotFound | Forbidden(message: string) | BadRequest(cause: ServiceError)

  const OwnershipMessage: string := "You can only access your own tasks"

  datatype PaginationMeta = PaginationMeta(total: nat, offset: nat, limit: nat)
  datatype PaginationResponse = PaginationResponse(data: seq<Task>, meta: PaginationMeta)

  /** The ownership guard: a task may be used only by the user who owns it. */
  function CheckTaskOwnership(task: Task, userId: UserId): (r: Outcome<ApiError>)
    ensures r.Pass? <==> task.userId == userId
    ensures r.Fail? ==> r.error == Forbidden(OwnershipMessage)
  {
    if task.userId != userId then Fail(Forbidden(OwnershipMessage)) else Pass
  }

  /** What the lookup and the ownership guard decide together for a request
      on task `id` by `userId`, given the stored tasks. */
  function Authorize(rows: seq<Task>, id: TaskId, userId: UserId): (r: Result<Task, ApiError>)
    ensures r == Failure(NotFound) <==> forall t | t in rows :: t.id != id
    ensures r.Success? ==> r.value in rows && r.value.id == id && r.value.userId == userId
    ensures r.Failure? ==> r.error == NotFound || r.error == Forbidden(OwnershipMessage)
    ensures DistinctIds(rows) ==>
      forall t | t in rows && t.id == id :: r == if t.userId == userId then Success(t) else Failure(Forbidden(OwnershipMessage))
  {
    match Lookup(rows, id)
    case None => Failure(NotFound)
    case Some(task) =>
      assert forall t | t in rows && t.id == id :: DistinctIds(rows) ==> t == task by {
        forall t | t in rows && t.id == id && DistinctIds(rows) ensures t == task {
          LookupFindsStored(rows, t);
        }
      }
      if CheckTaskOwnership(task, userId).Fail? then Failure(Forbidden(OwnershipMessage)) else Success(task)
  }

  /** A task is available to at most one user. */
  lemma AuthorizeSeparatesUsers(rows: seq<Task>, id: TaskId, u1: UserId, u2: UserId)
    requires u1 != u2
    ensures Authorize(rows, id, u1).Failure? || Authorize(rows, id, u2).Failure?
  {
  }

  /** The body of a create request with the caller as owner: `{...dto, userId}`
      lets the caller's id win over any `userId` in the body. */
  function WithOwner(dto: CreateTaskDto, userId: UserId): (r: CreateTaskDto)
    ensures r.userId == Some(userId)
    ensures r.title == dto.title && r.description == dto.description
    ensures r.status == dto.status && r.labels == dto.labels
  {
    dto.(userId := Some(userId))
  }

  class TasksController {
    const service: TasksService

    constructor (service: TasksService)
      ensures this.service == service
    {
      this.service := service;
    }

    /** The caller's page of tasks, with the number of all matching tasks and
        the requested window echoed back. */
    method FindAll(filters: FindTaskParams, pagination: PaginationParams, userId: UserId)
      returns (response: PaginationResponse)
      ensures response.meta == PaginationMeta(|Matching(service.tasks, filters, userId)|,
                                              pagination.offset, pagination.limit)
      ensures exists ordered ::
        && SortedBy(ordered, filters.sortBy, filters.sortOrder)
        && multiset(ordered) == multiset(Matching(service.tasks, filters, userId))
        && response.data == Window(ordered, pagination.offset, pagination.limit)
      ensures forall t | t in response.data :: t in service.tasks && t.userId == userId
    {
      var items, total := service.FindAll(filters, pagination, userId);
      response := PaginationResponse(items, PaginationMeta(total, pagination.offset, pagination.limit));
    }

    method FindOneOrFail(id: TaskId) returns (r: Result<Task, ApiError>)
      ensures r == Failure(NotFound) <==> forall t | t in service.tasks :: t.id != id
      ensures r.Failure? ==> r.error == NotFound
      ensures r.Success? ==> r == Success(Lookup(service.tasks, id).value)
    {
      var task := service.FindOne(id);
      if task.None? {
        return Failure(NotFound);
      }
      r := Success(task.value);
    }

    method FindOne(id: TaskId, userId: UserId) returns (r: Result<Task, ApiError>)
      ensures r == Authorize(service.tasks, id, userId)
      ensures r.Success? ==> r.value in service.tasks && r.value.id == id && r.value.userId == userId
    {
      var found := FindOneOrFail(id);
      if found.Failure? {
        return Failure(found.error);
      }
      var task := found.value;
      var guard := CheckTaskOwnership(task, userId);
      if guard.Fail? {
        return Failure(guard.error);
      }
      r := Success(task);
    }

    method Create(dto: CreateTaskDto, userId: UserId, freshId: TaskId) returns (t: Task)
      requires service.Valid()
      requires Lookup(service.tasks, freshId).None?
      modifies service
      ensures service.Valid()
      ensures t == CreatedTask(WithOwner(dto, userId), freshId)
      ensures t.userId == userId
      ensures service.tasks == old(service.tasks) + [t]
    {
      t := service.CreateTask(WithOwner(dto, userId), freshId);
    }

    method UpdateTask(id: TaskId, dto: UpdateTaskDto, userId: UserId) returns (r: Result<Task, ApiError>)
      requires service.Valid()
      modifies service
      ensures service.Valid()
      ensures var a := Authorize(old(service.tasks), id, userId);
        a.Failure? ==> r == Failure(a.error) && service.tasks == old(service.tasks)
      ensures var a := Authorize(old(service.tasks), id, userId);
        a.Success? ==> match ApplyUpdate(a.value, dto)
          case Failure(e) => r == Failure(BadRequest(e)) && service.tasks == old(service.tasks)
          case Success(u) => r == Success(u) && service.tasks == Saved(old(service.tasks), u)
    {
      var found := FindOneOrFail(id);
      if found.Failure? {
        return Failure(found.error);
      }
      var task := found.value;
      var guard := CheckTaskOwnership(task, userId);
      if guard.Fail? {
        return Failure(guard.error);
      }
      var updated := service.UpdateTask(task, dto);
      match updated
      case Failure(WrongTaskStatus) =>
        r := Failure(BadRequest(WrongTaskStatus));
      case Success(u) =>
        r := Success(u);
    }

    method DeleteTask(id: TaskId, userId: UserId) returns (r: Outcome<ApiError>)
      requires service.Valid()
      modifies service
      ensures service.Valid()
      ensures var a := Authorize(old(service.tasks), id, userId);
        a.Failure? ==> r == Fail(a.error) && service.tasks == old(service.tasks)
      ensures var a := Authorize(old(service.tasks), id, userId);
        a.Success? ==> r == Pass && service.tasks == Removed(old(service.tasks), id)
    {
      var found := FindOneOrFail(id);
      if found.Failure? {
        return Fail(found.error);
      }
      var task := found.value;
      var guard := CheckTaskOwnership(task, userId);
      if guard.Fail? {
        return guard;
      }
      service.DeleteTask(task);
      r := Pass;
    }

    method AddLabels(id: TaskId, dtos: seq<Label>, userId: UserId) returns (r: Result<Task, ApiError>)
      requires service.Valid()
      modifies service
      ensures service.Valid()
      ensures var a := Authorize(old(service.tasks), id, userId);
        a.Failure? ==> r == Failure(a.error) && service.tasks == old(service.tasks)
      ensures var a := Authorize(old(service.tasks), id, userId);
        a.Success? ==> var added := NewLabels(a.value.labels, dtos);
          && r == Success(a.value.(labels := a.value.labels + added))
          && service.tasks == if added == [] then old(service.tasks) else Saved(old(service.tasks), r.value)
    {
      var found := FindOneOrFail(id);
      if found.Failure? {
        return Failure(found.error);
      }
      var task := found.value;
      var guard := CheckTaskOwnership(task, userId);
      if guard.Fail? {
        return Failure(guard.error);
      }
      var updated := service.AddLabels(task, dtos);
      r := Success(updated);
    }

    method RemoveLabels(id: TaskId, names: seq<string>, userId: UserId) returns (r: Outcome<ApiError>)
      requires service.Valid()
      modifies service
      ensures service.Valid()
      ensures var a := Authorize(old(service.tasks), id, userId);
        a.Failure? ==> r == Fail(a.error) && service.tasks == old(service.tasks)
      ensures var a := Authorize(old(service.tasks), id, userId);
        a.Success? ==>
          && r == Pass
          && service.tasks == Saved(old(service.tasks), a.value.(labels := WithoutNames(a.value.labels, names)))
    {
      var found := FindOneOrFail(id);
      if found.Failure? {
        return Fail(found.error);
      }
      var task := found.value;
      var guard := CheckTaskOwnership(task, userId);
      if guard.Fail? {
        return guard;
      }
      service.RemoveLabels(task, names);
      r := Pass;
    }
  }
}

/** A client of the handlers: a task moves forward, a regression is refused
    without touching it, another user is kept out, and repeated labels are
    added once. */
module TasksScenario {
  import opened Wrappers
  import opened TaskStatus
  import opened LabelSet
  import opened TaskModel
  import opened TasksService
  import opened TasksController

  method LifecycleScenario() {
    var service := new TasksService();
    var controller := new TasksController(service);
    var body := CreateTaskDto("Write docs", "", None, Some("mallory"), None);
    var t := controller.Create(body, "alice", 7);
    assert t == Task(7, "Write docs", "", OPEN, "alice", []);
    assert service.tasks == [t];

    assert Authorize([t], 7, "alice") == Success(t);
    var started := controller.UpdateTask(7, UpdateTaskDto(None, None, Some(IN_PROGRESS), None), "alice");
    var s := t.(status := IN_PROGRESS);
    assert started == Success(s);
    assert service.tasks == Saved([t], s) == [s];

    assert Authorize([s], 7, "alice") == Success(s);
    var reopened := controller.UpdateTask(7, UpdateTaskDto(Some("Renamed"), None, Some(OPEN), None), "alice");
    assert reopened == Failure(BadRequest(WrongTaskStatus));
    assert service.tasks == [s];

    var other := controller.FindOne(7, "bob");
    assert other == Failure(Forbidden(OwnershipMessage));
    var missing := controller.FindOne(8, "alice");
    assert missing == Failure(NotFound);
  }

  method LabelScenario() {
    var service := new TasksService();
    var controller := new TasksController(service);
    var body := CreateTaskDto("Triage", "", None, None, Some([Label("bug"), Label("bug")]));
    assert GetUniqueLabels([Label("bug")]) == [Label("bug")];
    assert GetUniqueLabels([Label("bug"), Label("bug")]) == [Label("bug")];
    var t := controller.Create(body, "alice", 1);
    assert t.labels == [Label("bug")];
    assert Authorize([t], 1, "alice") == Success(t);

    var incoming := [Label("bug"), Label("bug"), Label("new")];
    assert incoming[..2] == [Label("bug"), Label("bug")];
    assert GetUniqueLabels(incoming) == [Label("bug"), Label("new")];
    assert NewLabels(t.labels, incoming) == [Label("new")];
    var relabelled := controller.AddLabels(1, incoming, "alice");
    assert relabelled.Success? && relabelled.value.labels == [Label("bug"), Label("new")];
  }
}
