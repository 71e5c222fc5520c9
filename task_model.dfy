/** The task aggregate and the request bodies that create and update it. */
module TaskModel {
  import opened Wrappers
  import opened TaskStatus
  import opened LabelSet

  /** Task ids stand for the generated primary keys. */
  type TaskId = nat
  type UserId = string

  /** A stored task with the labels it owns. */
  datatype Task = Task(
    id: TaskId,
    title: string,
    description: string,
    status: Status,
    userId: UserId,
    labels: seq<Label>)

  /** Body of a create request; `userId` is whatever the client sent, if anything. */
  datatype CreateTaskDto = CreateTaskDto(
    title: string,
    description: string,
    status: Option<Status>,
    userId: Option<UserId>,
    labels: Option<seq<Label>>)

  /** Body of a partial update; `None` marks a field the client left out. */
  datatype UpdateTaskDto = UpdateTaskDto(
    title: Option<string>,
    description: Option<string>,
    status: Option<Status>,
    labels: Option<seq<Label>>)
}
