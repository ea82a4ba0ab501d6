/** The write paths of the project service, as transitions of the store. */
module ProjectService {
  import opened Outcomes
  import opened Statuses
  import opened Entities
  import opened PriorityEngine
  import opened Stores

  /** The project's own fields are the caller's, with status `st`. */
  predicate HasInputFields(p: Project, input: ProjectInput, st: Status)
  {
    && p.title == input.title && p.description == input.description
    && p.course == input.course && p.due == input.due
    && p.weight == input.weight && p.difficulty == input.difficulty
    && p.status == st
  }

  /** `ProjectMapper.toEntity` once the status is parsed; the priority is
      filled in by the caller. */
  function NewProject(input: ProjectInput, st: Status): (p: Project)
    ensures HasInputFields(p, input, st)
  {
    Project(input.title, input.description, input.course, input.due,
            input.weight, input.difficulty, st, 0.0)
  }

  /** `createProject`. The mapper parses the status case-sensitively before the
      duplicate check, so a bad status wins over a duplicate. A new project has
      no tasks, so its priority is computed over the empty list. */
  function CreateProject(s: Store, today: int, input: ProjectInput): (r: Result<Store>)
    requires Valid(s)
    ensures r.Ok? <==> ParseExact(input.status).Some? && !TitleCourseTaken(s, input.title, input.course)
    ensures ParseExact(input.status).None? ==> r == Err(BadRequest)
    ensures ParseExact(input.status).Some? && TitleCourseTaken(s, input.title, input.course) ==> r == Err(Conflict)
    ensures r.Ok? ==>
      var id := s.nextProjectId;
      && Valid(r.value)
      && r.value.nextProjectId == id + 1 && r.value.nextTaskId == s.nextTaskId
      && r.value.projects.Keys == s.projects.Keys + {id}
      && id !in s.projects
      && (forall q :: q in s.projects ==> r.value.projects[q] == s.projects[q])
      && r.value.tasks == s.tasks
      && HasInputFields(r.value.projects[id], input, ParseExact(input.status).value)
      && TasksOf(r.value, id) == []
      && Synced(r.value, today, id)
    ensures r.Ok? && UniqueTitleCourse(s) ==> UniqueTitleCourse(r.value)
  {
    match ParseExact(input.status)
    case None => Err(BadRequest)
    case Some(st) =>
      if TitleCourseTaken(s, input.title, input.course) then Err(Conflict)
      else
        var p := NewProject(input, st);
        var id := s.nextProjectId;
        var s' := s.(projects := s.projects[id := Recomputed(today, p, [])],
                     nextProjectId := id + 1);
        assert TasksOf(s', id) == [] by {
          TasksOfUnowned(s', id);
        }
        Ok(s')
  }

  /** `getProjectById`; a missing id is reported as IllegalArgumentException. */
  function GetProjectById(s: Store, id: nat): (r: Result<Project>)
    ensures r.Ok? <==> id in s.projects
    ensures r.Ok? ==> r.value == s.projects[id]
    ensures r.Err? ==> r.error == BadRequest
  {
    if id in s.projects then Ok(s.projects[id]) else Err(BadRequest)
  }

  /** `updateProject`: every field replaced, then the priority recomputed over
      the project's current tasks. The title and course are not re-checked
      for duplicates. */
  function UpdateProject(s: Store, today: int, id: nat, input: ProjectInput): (r: Result<Store>)
    requires Valid(s)
    ensures r.Ok? <==> id in s.projects && Parse(input.status).Some?
    ensures id !in s.projects ==> r == Err(NotFound)
    ensures id in s.projects && Parse(input.status).None? ==> r == Err(BadRequest)
    ensures r.Ok? ==>
      && Valid(r.value)
      && r.value.nextTaskId == s.nextTaskId && r.value.nextProjectId == s.nextProjectId
      && r.value.projects.Keys == s.projects.Keys
      && (forall q :: q in s.projects && q != id ==> r.value.projects[q] == s.projects[q])
      && r.value.tasks == s.tasks
      && HasInputFields(r.value.projects[id], input, Parse(input.status).value)
      && Synced(r.value, today, id)
  {
    if id !in s.projects then Err(NotFound)
    else
      match Parse(input.status)
      case None => Err(BadRequest)
      case Some(st) =>
        var p := NewProject(input, st);
        Ok(s.(projects := s.projects[id := Recomputed(today, p, TasksOf(s, id))]))
  }

  /** `updateProjectStatus`: only the status changes; the priority is not recomputed. */
  function UpdateProjectStatus(s: Store, id: nat, status: string): (r: Result<Store>)
    requires Valid(s)
    ensures r.Ok? <==> id in s.projects && Parse(status).Some?
    ensures id !in s.projects ==> r == Err(NotFound)
    ensures id in s.projects && Parse(status).None? ==> r == Err(BadRequest)
    ensures r.Ok? ==>
      && Valid(r.value)
      && r.value.nextTaskId == s.nextTaskId && r.value.nextProjectId == s.nextProjectId
      && r.value.projects.Keys == s.projects.Keys
      && (forall q :: q in s.projects && q != id ==> r.value.projects[q] == s.projects[q])
      && r.value.tasks == s.tasks
      && r.value.projects[id].status == Parse(status).value
      && r.value.projects[id].priority == s.projects[id].priority
      && r.value.projects[id] == s.projects[id].(status := Parse(status).value)
  {
    if id !in s.projects then Err(NotFound)
    else
      match Parse(status)
      case None => Err(BadRequest)
      case Some(st) => Ok(s.(projects := s.projects[id := s.projects[id].(status := st)]))
  }

  /** `updateAllProjectPriorities`: every cached priority recomputed for `today`. */
  function UpdateAllProjectPriorities(s: Store, today: int): (r: Store)
    requires Valid(s)
    ensures Valid(r)
    ensures r.nextTaskId == s.nextTaskId && r.nextProjectId == s.nextProjectId
    ensures AllSynced(r, today)
    ensures r.projects.Keys == s.projects.Keys
    ensures forall id :: id in s.projects ==> r.projects[id].(priority := s.projects[id].priority) == s.projects[id]
    ensures r.tasks == s.tasks
  {
    s.(projects := map id | id in s.projects ::
                     Recomputed(today, s.projects[id], TasksOf(s, id)))
  }

  /** `deleteProject`: the project goes, and its tasks with it. */
  function DeleteProject(s: Store, id: nat): (r: Result<Store>)
    requires Valid(s)
    ensures r.Ok? <==> id in s.projects
    ensures r.Err? ==> r.error == NotFound
    ensures r.Ok? ==>
      && Valid(r.value)
      && r.value.nextTaskId == s.nextTaskId && r.value.nextProjectId == s.nextProjectId
      && r.value.projects.Keys == s.projects.Keys - {id}
      && (forall q :: q in r.value.projects ==> r.value.projects[q] == s.projects[q])
      && (forall tid :: tid in r.value.tasks <==> tid in s.tasks && s.tasks[tid].owner != id)
      && (forall tid :: tid in r.value.tasks ==> r.value.tasks[tid] == s.tasks[tid])
  {
    if id !in s.projects then Err(NotFound)
    else
      Ok(s.(projects := s.projects - {id},
            tasks := map tid | tid in s.tasks && s.tasks[tid].owner != id :: s.tasks[tid]))
  }
}
