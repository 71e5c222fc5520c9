/** The task service: the task table, the list query over it, and the
    operations that create, update, delete and relabel a task. */
module TasksService {
  import opened Wrappers
  import opened Seqs
  import opened TaskStatus
  import opened LabelSet
  import opened TaskModel
  import opened TaskQuery

  /** The one error the service raises itself. */
  datatype ServiceError = WrongTaskStatus

  // ---------------------------------------------------------------- the task table

  predicate DistinctIds(rows: seq<Task>) {
    forall i, j | 0 <= i < j < |rows| :: rows[i].id != rows[j].id
  }

  /** With distinct ids, the first row's id occurs nowhere in the rest. */
  lemma DistinctIdsTail(rows: seq<Task>)
    requires DistinctIds(rows) && rows != []
    ensures DistinctIds(rows[1..])
    ensures forall u | u in rows[1..] :: u.id != rows[0].id
  {
    forall u | u in rows[1..] ensures u.id != rows[0].id {
      var k :| 0 <= k < |rows[1..]| && rows[1..][k] == u;
      assert rows[k + 1] == u;
    }
  }

  /** A row whose id the distinct rows do not use may be put in front of them. */
  lemma DistinctIdsCons(h: Task, rest: seq<Task>)
    requires DistinctIds(rest)
    requires forall u | u in rest :: u.id != h.id
    ensures DistinctIds([h] + rest)
  {
    var r := [h] + rest;
    forall i, j | 0 <= i < j < |r| ensures r[i].id != r[j].id {
      assert r[j] == rest[j - 1] && r[j] in rest;
      if i > 0 {
        assert r[i] == rest[i - 1];
      }
    }
  }

  /** `findOne({ where: { id } })`: the stored task with that id, if any. */
  function Lookup(rows: seq<Task>, id: TaskId): (r: Option<Task>)
    ensures r.Some? ==> r.value in rows && r.value.id == id
    ensures r.None? <==> forall t | t in rows :: t.id != id
  {
    if rows == [] then None
    else if rows[0].id == id then Some(rows[0])
    else
      assert forall t | t in rows :: t == rows[0] || t in rows[1..];
      Lookup(rows[1..], id)
  }

  /** With distinct ids, a stored task is what a lookup of its id finds. */
  lemma {:induction false} LookupFindsStored(rows: seq<Task>, t: Task)
    requires DistinctIds(rows)
    requires t in rows
    ensures Lookup(rows, t.id) == Some(t)
  {
    if rows[0] != t {
      assert t in rows[1..];
      var k :| 0 <= k < |rows| && rows[k] == t;
      assert rows[0].id != t.id;
      LookupFindsStored(rows[1..], t);
    }
  }

  /** `save(task)`: the row with the task's id is replaced where it stands,
      or the task is appended when no row has its id. */
  function Saved(rows: seq<Task>, t: Task): (r: seq<Task>)
    ensures t in r
    ensures forall u | u in r :: u == t || u in rows
    ensures Lookup(rows, t.id).None? ==> r == rows + [t]
  {
    if rows == [] then [t]
    else if rows[0].id == t.id then [t] + rows[1..]
    else
      assert rows == [rows[0]] + rows[1..];
      [rows[0]] + Saved(rows[1..], t)
  }

  /** After a save, the saved task is found under its id and every other id
      finds what it found before. */
  lemma {:induction false} SavedLookup(rows: seq<Task>, t: Task, id: TaskId)
    ensures Lookup(Saved(rows, t), id) == if id == t.id then Some(t) else Lookup(rows, id)
  {
    if rows != [] && rows[0].id != t.id {
      SavedLookup(rows[1..], t, id);
    }
  }

  /** A save keeps the ids of the table distinct. */
  lemma {:induction false} SavedKeepsIdsDistinct(rows: seq<Task>, t: Task)
    requires DistinctIds(rows)
    ensures DistinctIds(Saved(rows, t))
  {
    if rows != [] {
      DistinctIdsTail(rows);
      if rows[0].id != t.id {
        SavedKeepsIdsDistinct(rows[1..], t);
        DistinctIdsCons(rows[0], Saved(rows[1..], t));
      } else {
        DistinctIdsCons(t, rows[1..]);
      }
    }
  }

  /** `remove(task)`: every row with that id is gone and nothing else changes. */
  function Removed(rows: seq<Task>, id: TaskId): (r: seq<Task>)
    ensures Lookup(r, id).None?
    ensures forall other | other != id :: Lookup(r, other) == Lookup(rows, other)
    ensures forall u | u in r :: u in rows
  {
    if rows == [] then []
    else
      assert forall u | u in rows[1..] :: u in rows;
      var rest := Removed(rows[1..], id);
      if rows[0].id == id then rest else [rows[0]] + rest
  }

  /** A removal keeps the ids of the table distinct. */
  lemma {:induction false} RemovedKeepsIdsDistinct(rows: seq<Task>, id: TaskId)
    requires DistinctIds(rows)
    ensures DistinctIds(Removed(rows, id))
  {
    if rows != [] {
      DistinctIdsTail(rows);
      RemovedKeepsIdsDistinct(rows[1..], id);
      if rows[0].id != id {
        DistinctIdsCons(rows[0], Removed(rows[1..], id));
      }
    }
  }

  // ---------------------------------------------------------------- creating

  /** The task `createTask` saves: the labels of the body, when given, are
      normalized first; the status defaults to OPEN. */
  function CreatedTask(dto: CreateTaskDto, id: TaskId): (t: Task)
    requires dto.userId.Some?
    ensures t.id == id && t.userId == dto.userId.value
    ensures t.title == dto.title && t.description == dto.description
    ensures t.status == dto.status.GetOr(OPEN)
    ensures NoDuplicates(t.labels)
    ensures forall l :: l in t.labels <==> dto.labels.Some? && l in dto.labels.value
    ensures t.labels == if dto.labels.Some? then GetUniqueLabels(dto.labels.value) else []
  {
    Task(id, dto.title, dto.description, dto.status.GetOr(OPEN), dto.userId.value,
         if dto.labels.Some? then GetUniqueLabels(dto.labels.value) else [])
  }

  // ---------------------------------------------------------------- updating

  /** `Object.assign(task, dto)`: every field present in the update replaces the
      task's field. */
  function Assign(task: Task, dto: UpdateTaskDto): Task {
    task.(title := dto.title.GetOr(task.title),
          description := dto.description.GetOr(task.description),
          status := dto.status.GetOr(task.status),
          labels := dto.labels.GetOr(task.labels))
  }

  /** The outcome of `updateTask`: rejected as a whole when the status change
      is a regression; otherwise present fields win, absent ones keep their
      values, and a given label list is normalized and replaces the old one. */
  function ApplyUpdate(task: Task, dto: UpdateTaskDto): (r: Result<Task, ServiceError>)
    ensures r.Failure? <==> dto.status.Some? && Rank(dto.status.value) < Rank(task.status)
    ensures r.Failure? ==> r.error == WrongTaskStatus
    ensures r.Success? ==>
      && r.value.id == task.id
      && r.value.userId == task.userId
      && Rank(task.status) <= Rank(r.value.status)
      && r.value.title == (if dto.title.Some? then dto.title.value else task.title)
      && r.value.description == (if dto.description.Some? then dto.description.value else task.description)
      && r.value.status == (if dto.status.Some? then dto.status.value else task.status)
      && (dto.labels.None? ==> r.value.labels == task.labels)
      && (dto.labels.Some? ==> NoDuplicates(r.value.labels) &&
                               forall l :: l in r.value.labels <==> l in dto.labels.value)
      && (dto.labels.Some? ==> r.value.labels == GetUniqueLabels(dto.labels.value))
  {
    if dto.status.Some? && !IsValidStatusTransition(task.status, dto.status.value) then
      Failure(WrongTaskStatus)
    else
      var normalized := if dto.labels.Some? then dto.(labels := Some(GetUniqueLabels(dto.labels.value))) else dto;
      Success(Assign(task, normalized))
  }

  /** Applying updates one after another never moves a task back in its
      lifecycle and never changes its owner. */
  lemma {:induction false} UpdatesNeverRegress(task: Task, dtos: seq<UpdateTaskDto>)
    decreases |dtos|
    ensures var r := ApplyAll(task, dtos);
      r.userId == task.userId && r.id == task.id && Rank(task.status) <= Rank(r.status)
  {
    if dtos != [] {
      var next := ApplyUpdate(task, dtos[0]);
      UpdatesNeverRegress(if next.Success? then next.value else task, dtos[1..]);
    }
  }

  /** The task after a series of updates, each rejected one leaving it as it was. */
  function ApplyAll(task: Task, dtos: seq<UpdateTaskDto>): Task
    decreases |dtos|
  {
    if dtos == [] then task
    else
      var next := ApplyUpdate(task, dtos[0]);
      ApplyAll(if next.Success? then next.value else task, dtos[1..])
  }

  // ---------------------------------------------------------------- adding labels

  /** The labels of `s` not in `excluded`, in order. */
  function Excluding(s: seq<Label>, excluded: seq<Label>): (r: seq<Label>)
    ensures forall l :: l in r <==> l in s && l !in excluded
    ensures NoDuplicates(s) ==> NoDuplicates(r)
  {
    if s == [] then []
    else
      var rest := Excluding(s[1..], excluded);
      assert forall l | l in s :: l == s[0] || l in s[1..];
      assert NoDuplicates(s) ==> s[0] !in s[1..] && NoDuplicates(s[1..]);
      if s[0] in excluded then rest else [s[0]] + rest
  }

  /** The labels `addLabels` appends: the normalized request without the
      names the task already carries. */
  function NewLabels(current: seq<Label>, dtos: seq<Label>): (r: seq<Label>)
    ensures NoDuplicates(r)
    ensures forall l :: l in r <==> l in dtos && l !in current
  {
    Excluding(GetUniqueLabels(dtos), current)
  }

  /** After `addLabels` the task carries exactly the old labels and the
      requested ones, and no name twice when it had none twice before. */
  lemma AddLabelsUnion(current: seq<Label>, dtos: seq<Label>)
    requires NoDuplicates(current)
    ensures var added := current + NewLabels(current, dtos);
      && NoDuplicates(added)
      && forall l :: l in added <==> l in current || l in dtos
  {
    var n := NewLabels(current, dtos);
    var added := current + n;
    forall i, j | 0 <= i < j < |added| ensures added[i] != added[j] {
      if j >= |current| {
        assert added[j] == n[j - |current|] && added[j] in n;
        if i >= |current| {
          assert added[i] == n[i - |current|];
        } else {
          assert added[i] in current;
        }
      }
    }
  }

  /** A second `addLabels` with the same request adds nothing, so it saves
      nothing and returns the task unchanged. */
  lemma AddLabelsIdempotent(current: seq<Label>, dtos: seq<Label>)
    ensures NewLabels(current + NewLabels(current, dtos), dtos) == []
  {
    ExcludingCovered(GetUniqueLabels(dtos), current + NewLabels(current, dtos));
  }

  /** Excluding a list that covers every label leaves nothing. */
  lemma {:induction false} ExcludingCovered(s: seq<Label>, excluded: seq<Label>)
    requires forall l | l in s :: l in excluded
    ensures Excluding(s, excluded) == []
  {
    if s != [] {
      assert s[0] in excluded;
      ExcludingCovered(s[1..], excluded);
    }
  }

  // ---------------------------------------------------------------- removing labels

  /** `labels.filter(label => !names.includes(label.name))`. */
  function WithoutNames(labels: seq<Label>, names: seq<string>): (r: seq<Label>)
    ensures forall l :: l in r <==> l in labels && l.name !in names
    ensures NoDuplicates(labels) ==> NoDuplicates(r)
    ensures |r| <= |labels|
  {
    if labels == [] then []
    else
      assert forall l | l in labels :: l == labels[0] || l in labels[1..];
      assert NoDuplicates(labels) ==> labels[0] !in labels[1..] && NoDuplicates(labels[1..]);
      (if labels[0].name in names then [] else [labels[0]]) + WithoutNames(labels[1..], names)
  }

  /** Removal keeps the relative order of the labels it keeps: it distributes
      over concatenation. */
  lemma {:induction false} WithoutNamesKeepsOrder(a: seq<Label>, b: seq<Label>, names: seq<string>)
    ensures WithoutNames(a + b, names) == WithoutNames(a, names) + WithoutNames(b, names)
  {
    if a == [] {
      assert a + b == b;
    } else {
      assert (a + b)[0] == a[0] && (a + b)[1..] == a[1..] + b;
      WithoutNamesKeepsOrder(a[1..], b, names);
      var head := if a[0].name in names then [] else [a[0]];
      calc {
        WithoutNames(a + b, names);
        head + WithoutNames(a[1..] + b, names);
        head + (WithoutNames(a[1..], names) + WithoutNames(b, names));
        (head + WithoutNames(a[1..], names)) + WithoutNames(b, names);
      }
    }
  }

  /** Removing names that no label carries leaves the list as it was. */
  lemma {:induction false} WithoutAbsentNames(labels: seq<Label>, names: seq<string>)
    requires forall l | l in labels :: l.name !in names
    ensures WithoutNames(labels, names) == labels
  {
    if labels != [] {
      assert forall l | l in labels[1..] :: l in labels;
      WithoutAbsentNames(labels[1..], names);
      assert labels == [labels[0]] + labels[1..];
    }
  }

  /** Removing the same names twice gives the list of removing them once. */
  lemma RemoveLabelsIdempotent(labels: seq<Label>, names: seq<string>)
    ensures WithoutNames(WithoutNames(labels, names), names) == WithoutNames(labels, names)
  {
    WithoutAbsentNames(WithoutNames(labels, names), names);
  }

  // ---------------------------------------------------------------- the service

  /** No stored task carries the same label twice. */
  predicate LabelsDistinct(rows: seq<Task>) {
    forall t | t in rows :: NoDuplicates(t.labels)
  }

  class TasksService {
    /** The task table in insertion order, each task with its labels. */
    var tasks: seq<Task>

    ghost predicate Valid()
      reads this
    {
      DistinctIds(tasks) && LabelsDistinct(tasks)
    }

    constructor ()
      ensures Valid() && tasks == []
    {
      tasks := [];
    }

    /** The owner's tasks that pass the filters: `total` counts all of them,
        `items` is the window `[offset, offset + limit)` of them in sort order. */
    method FindAll(filters: FindTaskParams, pagination: PaginationParams, userId: UserId)
      returns (items: seq<Task>, total: nat)
      ensures total == |Matching(tasks, filters, userId)|
      ensures exists ordered ::
        && SortedBy(ordered, filters.sortBy, filters.sortOrder)
        && multiset(ordered) == multiset(Matching(tasks, filters, userId))
        && items == Window(ordered, pagination.offset, pagination.limit)
      ensures forall t | t in items :: t in tasks && Matches(t, filters, userId)
      ensures SortedBy(items, filters.sortBy, filters.sortOrder)
      ensures |items| == if pagination.offset >= total then 0 else Min(pagination.limit, total - pagination.offset)
    {
      var matching := Matching(tasks, filters, userId);
      total := |matching|;
      var ordered := OrderBy(matching, filters.sortBy, filters.sortOrder);
      items := Window(ordered, pagination.offset, pagination.limit);
      WindowOfSorted(ordered, pagination.offset, pagination.limit, filters.sortBy, filters.sortOrder);
      MatchingMembers(tasks, filters, userId);
      forall t | t in items ensures t in tasks && Matches(t, filters, userId) {
        assert t in multiset(ordered);
      }
    }

    method FindOne(id: TaskId) returns (r: Option<Task>)
      ensures r == Lookup(tasks, id)
      ensures r.Some? ==> r.value in tasks && r.value.id == id
      ensures r.None? <==> forall t | t in tasks :: t.id != id
    {
      r := Lookup(tasks, id);
    }

    /** Saves a new task under the fresh id the table generates for it. */
    method CreateTask(dto: CreateTaskDto, freshId: TaskId) returns (t: Task)
      requires Valid()
      requires dto.userId.Some?
      requires Lookup(tasks, freshId).None?
      modifies this
      ensures Valid()
      ensures t == CreatedTask(dto, freshId)
      ensures tasks == old(tasks) + [t]
    {
      var body := dto;
      if dto.labels.Some? {
        body := body.(labels := Some(GetUniqueLabels(dto.labels.value)));
      }
      t := Task(freshId, body.title, body.description, body.status.GetOr(OPEN), body.userId.value,
                body.labels.GetOr([]));
      SavedKeepsIdsDistinct(tasks, t);
      tasks := Saved(tasks, t);
    }

    method UpdateTask(task: Task, dto: UpdateTaskDto) returns (r: Result<Task, ServiceError>)
      requires Valid()
      requires NoDuplicates(task.labels)
      modifies this
      ensures Valid()
      ensures r == ApplyUpdate(task, dto)
      ensures r.Failure? ==> tasks == old(tasks)
      ensures r.Success? ==> tasks == Saved(old(tasks), r.value)
    {
      if dto.status.Some? && !IsValidStatusTransition(task.status, dto.status.value) {
        return Failure(WrongTaskStatus);
      }
      var update := dto;
      if dto.labels.Some? {
        update := update.(labels := Some(GetUniqueLabels(dto.labels.value)));
      }
      var updated := Assign(task, update);
      SavedKeepsIdsDistinct(tasks, updated);
      tasks := Saved(tasks, updated);
      r := Success(updated);
    }

    method DeleteTask(task: Task)
      requires Valid()
      modifies this
      ensures Valid()
      ensures tasks == Removed(old(tasks), task.id)
    {
      RemovedKeepsIdsDistinct(tasks, task.id);
      tasks := Removed(tasks, task.id);
    }

    method AddLabels(task: Task, dtos: seq<Label>) returns (r: Task)
      requires Valid()
      requires NoDuplicates(task.labels)
      modifies this
      ensures Valid()
      ensures r == task.(labels := task.labels + NewLabels(task.labels, dtos))
      ensures NewLabels(task.labels, dtos) == [] ==> r == task && tasks == old(tasks)
      ensures NewLabels(task.labels, dtos) != [] ==> tasks == Saved(old(tasks), r)
    {
      var labels := NewLabels(task.labels, dtos);
      if |labels| > 0 {
        r := task.(labels := task.labels + labels);
        AddLabelsUnion(task.labels, dtos);
        SavedKeepsIdsDistinct(tasks, r);
        tasks := Saved(tasks, r);
        return;
      }
      r := task;
    }

    method RemoveLabels(task: Task, names: seq<string>)
      requires Valid()
      requires NoDuplicates(task.labels)
      modifies this
      ensures Valid()
      ensures tasks == Saved(old(tasks), task.(labels := WithoutNames(task.labels, names)))
    {
      var kept := task.(labels := WithoutNames(task.labels, names));
      SavedKeepsIdsDistinct(tasks, kept);
      tasks := Saved(tasks, kept);
    }
  }
}
