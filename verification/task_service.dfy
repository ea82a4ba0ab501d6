/** The task service: the write paths that touch a project's task list and
    the reads that check a task against the project named in the request. */
module TaskService {
  import opened Outcomes
  import opened Statuses
  import opened Entities
  import opened PriorityEngine
  import opened Stores

  /** The task's fields are the caller's, with status `st` and owner `pid`. */
  predicate HasInputFields(t: Task, input: TaskInput, st: Status, pid: nat)
  {
    && t.title == input.title && t.description == input.description
    && t.due == input.due && t.estimatedHours == input.estimatedHours
    && t.difficulty == input.difficulty && t.status == st && t.owner == pid
  }

  /** `TaskMapper.toEntity` once the status is parsed. */
  function NewTask(input: TaskInput, st: Status, pid: nat): (t: Task)
    ensures HasInputFields(t, input, st, pid)
  {
    Task(input.title, input.description, input.due, input.estimatedHours, input.difficulty, st, pid)
  }

  /** `createTask`: the task joins the end of the project's list and the
      project's priority is recomputed with it included. A missing project is
      reported as IllegalArgumentException, like a bad status. */
  function CreateTask(s: Store, today: int, pid: nat, input: TaskInput): (r: Result<Store>)
    requires Valid(s)
    ensures r.Ok? <==> pid in s.projects && Parse(input.status).Some?
    ensures r.Err? ==> r.error == BadRequest
    ensures r.Ok? ==>
      var k := s.nextTaskId;
      && Valid(r.value)
      && r.value.nextTaskId == k + 1 && r.value.nextProjectId == s.nextProjectId
      && k !in s.tasks
      && r.value.tasks.Keys == s.tasks.Keys + {k}
      && (forall id :: id in s.tasks ==> r.value.tasks[id] == s.tasks[id])
      && HasInputFields(r.value.tasks[k], input, Parse(input.status).value, pid)
      && TasksOf(r.value, pid) == TasksOf(s, pid) + [r.value.tasks[k]]
      && r.value.projects.Keys == s.projects.Keys
      && (forall q :: q in s.projects && q != pid ==> r.value.projects[q] == s.projects[q])
      && r.value.projects[pid].(priority := s.projects[pid].priority) == s.projects[pid]
      && Synced(r.value, today, pid)
  {
    if pid !in s.projects then Err(BadRequest)
    else
      match Parse(input.status)
      case None => Err(BadRequest)
      case Some(st) =>
        var t := NewTask(input, st, pid);
        var s1 := s.(tasks := s.tasks[s.nextTaskId := t], nextTaskId := s.nextTaskId + 1);
        TasksOfAfterInsert(s, t, pid);
        var s' := s1.(projects := s1.projects[pid := Recomputed(today, s.projects[pid], TasksOf(s1, pid))]);
        assert s'.tasks[s.nextTaskId] == t;
        assert TasksOf(s', pid) == TasksOf(s, pid) + [t];
        assert Valid(s');
        Ok(s')
  }

  /** `getTaskById`: every failure, the ownership mismatch included, is an
      IllegalArgumentException. */
  function GetTaskById(s: Store, pid: nat, tid: nat): (r: Result<Task>)
    ensures r.Ok? <==> pid in s.projects && tid in s.tasks && s.tasks[tid].owner == pid
    ensures r.Ok? ==> r.value == s.tasks[tid]
    ensures r.Err? ==> r.error == BadRequest
  {
    if pid !in s.projects then Err(BadRequest)
    else if tid !in s.tasks then Err(BadRequest)
    else if s.tasks[tid].owner != pid then Err(BadRequest)
    else Ok(s.tasks[tid])
  }

  /** `getIncompleteTasksInProject`: the project's tasks that are not COMPLETED,
      in list order. An unknown project simply has none. */
  function IncompleteTasksInProject(s: Store, pid: nat): (r: seq<Task>)
    requires Valid(s)
    ensures forall t :: t in r <==>
      (exists id :: id in s.tasks && s.tasks[id] == t && t.owner == pid) && !IsCompleted(t)
    ensures |r| + CompletedCount(TasksOf(s, pid)) == |TasksOf(s, pid)|
    ensures pid !in s.projects ==> r == []
  {
    TasksOfMembers(s, pid);
    if pid !in s.projects then
      TasksOfUnowned(s, pid);
      Incomplete(TasksOf(s, pid))
    else
      Incomplete(TasksOf(s, pid))
  }

  /** `updateTask`: every field replaced and the task moved under the path's
      project without checking who owned it; only that project is recomputed. */
  function UpdateTask(s: Store, today: int, pid: nat, tid: nat, input: TaskInput): (r: Result<Store>)
    requires Valid(s)
    ensures r.Ok? <==> tid in s.tasks && pid in s.projects && Parse(input.status).Some?
    ensures tid !in s.tasks ==> r == Err(NotFound)
    ensures tid in s.tasks && pid !in s.projects ==> r == Err(NotFound)
    ensures tid in s.tasks && pid in s.projects && Parse(input.status).None? ==> r == Err(BadRequest)
    ensures r.Ok? ==>
      && Valid(r.value)
      && r.value.nextTaskId == s.nextTaskId && r.value.nextProjectId == s.nextProjectId
      && r.value.tasks.Keys == s.tasks.Keys
      && (forall id :: id in s.tasks && id != tid ==> r.value.tasks[id] == s.tasks[id])
      && HasInputFields(r.value.tasks[tid], input, Parse(input.status).value, pid)
      && r.value.projects.Keys == s.projects.Keys
      && (forall q :: q in s.projects && q != pid ==> r.value.projects[q] == s.projects[q])
      && r.value.projects[pid].(priority := s.projects[pid].priority) == s.projects[pid]
      && Synced(r.value, today, pid)
  {
    if tid !in s.tasks then Err(NotFound)
    else if pid !in s.projects then Err(NotFound)
    else
      match Parse(input.status)
      case None => Err(BadRequest)
      case Some(st) =>
        var s1 := s.(tasks := s.tasks[tid := NewTask(input, st, pid)]);
        Ok(s1.(projects := s1.projects[pid := Recomputed(today, s.projects[pid], TasksOf(s1, pid))]))
  }

  /** `updateTaskStatus`: only the status changes and no priority is recomputed.
      The project itself is not looked up; a task owned by it implies it exists. */
  function UpdateTaskStatus(s: Store, pid: nat, tid: nat, status: string): (r: Result<Store>)
    requires Valid(s)
    ensures r.Ok? <==> tid in s.tasks && s.tasks[tid].owner == pid && Parse(status).Some?
    ensures tid !in s.tasks ==> r == Err(NotFound)
    ensures tid in s.tasks && s.tasks[tid].owner != pid ==> r == Err(BadRequest)
    ensures tid in s.tasks && Parse(status).None? ==> r == Err(BadRequest)
    ensures r.Ok? ==>
      && Valid(r.value)
      && r.value.nextTaskId == s.nextTaskId && r.value.nextProjectId == s.nextProjectId
      && r.value.projects == s.projects
      && r.value.tasks.Keys == s.tasks.Keys
      && (forall id :: id in s.tasks && id != tid ==> r.value.tasks[id] == s.tasks[id])
      && r.value.tasks[tid] == s.tasks[tid].(status := Parse(status).value)
  {
    if tid !in s.tasks then Err(NotFound)
    else if s.tasks[tid].owner != pid then Err(BadRequest)
    else
      match Parse(status)
      case None => Err(BadRequest)
      case Some(st) => Ok(s.(tasks := s.tasks[tid := s.tasks[tid].(status := st)]))
  }

  /** The checks `deleteTask` makes, in order; the first that fails decides. */
  function DeleteChecks(s: Store, pid: nat, tid: nat): (r: Option<Error>)
    ensures r.None? <==> pid in s.projects && tid in s.tasks && s.tasks[tid].owner == pid
    ensures pid !in s.projects ==> r == Some(NotFound)
    ensures pid in s.projects && tid !in s.tasks ==> r == Some(NotFound)
    ensures pid in s.projects && tid in s.tasks && s.tasks[tid].owner != pid ==> r == Some(BadRequest)
  {
    if pid !in s.projects then Some(NotFound)
    else if tid !in s.tasks then Some(NotFound)
    else if s.tasks[tid].owner != pid then Some(BadRequest)
    else None
  }

  /** `deleteTask` as written: the priority is recomputed while the task is
      still on the list, and only then is the task deleted. */
  function DeleteTask(s: Store, today: int, pid: nat, tid: nat): (r: Result<Store>)
    requires Valid(s)
    ensures r.Ok? <==> DeleteChecks(s, pid, tid).None?
    ensures r.Err? ==> Some(r.error) == DeleteChecks(s, pid, tid)
    ensures r.Ok? ==>
      && Valid(r.value)
      && r.value.nextTaskId == s.nextTaskId && r.value.nextProjectId == s.nextProjectId
      && r.value.tasks.Keys == s.tasks.Keys - {tid}
      && (forall id :: id in r.value.tasks ==> r.value.tasks[id] == s.tasks[id])
      && r.value.projects.Keys == s.projects.Keys
      && (forall q :: q in s.projects && q != pid ==> r.value.projects[q] == s.projects[q])
      && s.tasks[tid] in TasksOf(s, pid)
      && r.value.projects[pid].(priority := s.projects[pid].priority) == s.projects[pid]
      && r.value.projects[pid].priority == CalculatePriority(today, s.projects[pid], TasksOf(s, pid))
  {
    match DeleteChecks(s, pid, tid)
    case Some(e) => Err(e)
    case None =>
      TasksOfMembers(s, pid);
      var s1 := s.(projects := s.projects[pid := Recomputed(today, s.projects[pid], TasksOf(s, pid))]);
      Ok(s1.(tasks := s1.tasks - {tid}))
  }

  /** `deleteTask` with the evidently intended order: the task is deleted first
      and the priority recomputed over what remains. */
  function DeleteTaskFixed(s: Store, today: int, pid: nat, tid: nat): (r: Result<Store>)
    requires Valid(s)
    ensures r.Ok? <==> DeleteChecks(s, pid, tid).None?
    ensures r.Err? ==> Some(r.error) == DeleteChecks(s, pid, tid)
    ensures r.Ok? ==>
      && Valid(r.value)
      && r.value.nextTaskId == s.nextTaskId && r.value.nextProjectId == s.nextProjectId
      && r.value.tasks.Keys == s.tasks.Keys - {tid}
      && (forall id :: id in r.value.tasks ==> r.value.tasks[id] == s.tasks[id])
      && r.value.projects.Keys == s.projects.Keys
      && (forall q :: q in s.projects && q != pid ==> r.value.projects[q] == s.projects[q])
      && r.value.projects[pid].(priority := s.projects[pid].priority) == s.projects[pid]
      && Synced(r.value, today, pid)
  {
    match DeleteChecks(s, pid, tid)
    case Some(e) => Err(e)
    case None =>
      var s1 := s.(tasks := s.tasks - {tid});
      Ok(s1.(projects := s1.projects[pid := Recomputed(today, s.projects[pid], TasksOf(s1, pid))]))
  }
}
