# Deadline manager: priority engine and consistency coordinator

A Dafny model of the one piece of real logic in the deadline-manager REST
backend, a service that tracks academic projects and their tasks:

- the **priority engine** (`ProjectService.calculatePriority` and its private
  helpers) turns the evaluation date, a project's own fields and its task list
  into an urgency score in [0, 10], rounded to tenths;
- the **write paths** of `ProjectService` and `TaskService` that keep each
  project's cached `priority` field in step with that engine.

Dates are integer day numbers, so `daysLeft = due - today`. Scores are exact
`real`s: every sub-score is a rational piecewise-linear function, and only the
final `Math.round(x * 10) / 10` step is modelled, as `floor(10x + 1/2) / 10`.
The two repositories are replaced by an in-memory `Store`. It holds a map from
project id to project, a map from task id to task, and the two identity
counters. Each task carries its owner's id. A project's task list
(`project.getTasks()`) is the list of tasks it owns, in ascending id order.
Each write path that can fail is a pure function from a store to
`Result<Store>`, and a success carries the new store. The bulk refresh
`updateAllProjectPriorities` cannot fail, so it returns the new store
directly. A failure carries one of three error kinds, which are the HTTP
statuses the exception handler gives to the exception the service throws:

- `BadRequest` for `IllegalArgumentException`;
- `NotFound` for `NoSuchElementException`;
- `Conflict` for `IllegalStateException`.

A failure never yields a store, because the transaction rolls back.

Modules, one per component: `Outcomes` (error kinds and results), `Statuses`
(the enum and its two parsers), `Entities` (records and task-list filters),
`PriorityEngine`, `Stores` (the store, task lists, the in-step predicates),
`ProjectService`, `TaskService`, and `Consistency` (which write paths keep every
cache in step, and concrete stores showing the ones that do not).

Points where the code behaves differently from what one might expect; the
model follows the code in each:

- **Importance clamping.** `ProjectService.java` line 229 clamps the weight to
  0..10, while the request validation accepts any weight from 0 to 100. A
  weight of 50 therefore scores as importance 10, not 5. A project due in 14
  days with weight 50, difficulty 5 and no tasks scores 6.2; with weight 5 it
  scores 4.3 (`WorkedExample` proves both).
- **Order of deletion.** `deleteTask` recomputes the priority before it
  deletes the task, not after (see Findings).
- **Missing project ids on reads.** `getProjectById`, `getTaskById` and
  `createTask` report a missing project as `IllegalArgumentException`, so the
  model gives `BadRequest`, not the `NotFound` the update and delete paths
  give.
- **Status case on create.** `createProject` parses the status
  case-sensitively (`ProjectMapper.toEntity` calls `Status.valueOf` without
  upper-casing), and it does so before the duplicate check. Every other path
  upper-cases the status first.

## Model

| member | source | states |
|---|---|---|
| `Statuses.ParseExact` | src/main/java/com/erikmlarson5/deadlinemanager/utils/ProjectMapper.java:30 | yields status `st` exactly when the string is `st`'s constant name, and fails otherwise |
| `Statuses.Parse` | src/main/java/com/erikmlarson5/deadlinemanager/service/TaskService.java:194 | yields `st` exactly when the upper-cased string is `st`'s constant name, and fails otherwise |
| `Statuses.ParseNameRoundTrip` | src/main/java/com/erikmlarson5/deadlinemanager/utils/Status.java:6-11 | every constant's name parses back to that constant, in upper case and in lower case |
| `Statuses.ParseIgnoresCase` | src/main/java/com/erikmlarson5/deadlinemanager/utils/TaskMapper.java:25 | a string and its upper-cased form parse to the same result |
| `Statuses.ExactParseIsStricter` | src/main/java/com/erikmlarson5/deadlinemanager/utils/ProjectMapper.java:30 | whatever the case-sensitive create-time parse accepts, the case-insensitive parse accepts with the same value; "in_progress" is accepted only by the latter |
| `Entities.Incomplete` | src/main/java/com/erikmlarson5/deadlinemanager/service/TaskService.java:138-142 | holds exactly the tasks that are not COMPLETED, and its length plus the completed count is the list length |
| `Entities.IncompleteAppend` | src/main/java/com/erikmlarson5/deadlinemanager/service/TaskService.java:138-142 | filtering distributes over concatenation, so the original order is kept |
| `Entities.IncompleteSingleton` | src/main/java/com/erikmlarson5/deadlinemanager/service/TaskService.java:139 | a single task is kept exactly when it is not COMPLETED |
| `Entities.CompletedCount` | src/main/java/com/erikmlarson5/deadlinemanager/service/ProjectService.java:327-332 | lies between 0 and the list length; it is 0 exactly when no task is COMPLETED and the full length exactly when all are |
| `Entities.HoursLeftIsTotalOfIncomplete` | src/main/java/com/erikmlarson5/deadlinemanager/service/ProjectService.java:262-268 | the hours the loop accumulates are the total hours of the incomplete tasks |
| `PriorityEngine.TimePressure` | src/main/java/com/erikmlarson5/deadlinemanager/service/ProjectService.java:276-291 | lies in [1, 10]; it is 10 when no days are left and 1 from 14 days on |
| `PriorityEngine.TimePressureNonIncreasing` | src/main/java/com/erikmlarson5/deadlinemanager/service/ProjectService.java:276-291 | never rises as the days left grow |
| `PriorityEngine.Workload` | src/main/java/com/erikmlarson5/deadlinemanager/service/ProjectService.java:298-313 | lies in [1, 10]; it is 1 for no remaining hours and above 2 for any positive amount |
| `PriorityEngine.WorkloadNonDecreasing` | src/main/java/com/erikmlarson5/deadlinemanager/service/ProjectService.java:298-313 | never falls as the hours grow, and the `min(1, ...)` cap holds it at 10 from 40 hours on |
| `PriorityEngine.RemainingWork` | src/main/java/com/erikmlarson5/deadlinemanager/service/ProjectService.java:257-269 | is 5 for a project without tasks, and otherwise the total estimated hours of the tasks not COMPLETED |
| `PriorityEngine.ComputeRemainingWork` | src/main/java/com/erikmlarson5/deadlinemanager/service/ProjectService.java:257-269 | the source's accumulation loop returns the remaining work defined above |
| `PriorityEngine.ProgressScore` | src/main/java/com/erikmlarson5/deadlinemanager/service/ProjectService.java:320-338 | lies in [0, 10] and is 5 without tasks; with tasks it is 0 exactly when all are COMPLETED and 10 exactly when none is |
| `PriorityEngine.ComputeProgressScore` | src/main/java/com/erikmlarson5/deadlinemanager/service/ProjectService.java:320-338 | the source's counting loop returns the progress score defined above |
| `PriorityEngine.Clamp` | src/main/java/com/erikmlarson5/deadlinemanager/service/ProjectService.java:229 | the result lies in the band, equals the input inside it, and equals the nearer bound outside it |
| `PriorityEngine.BaseScore` | src/main/java/com/erikmlarson5/deadlinemanager/service/ProjectService.java:240-243 | for sub-scores in their ranges, the weighted blend lies in [0.55, 10] |
| `PriorityEngine.DifficultyMultiplier` | src/main/java/com/erikmlarson5/deadlinemanager/service/ProjectService.java:235-246 | lies in [1, 1.5], and is 1 + d/20 for a difficulty d already in 0..10 |
| `PriorityEngine.RoundTenth` | src/main/java/com/erikmlarson5/deadlinemanager/service/ProjectService.java:249 | is a whole number of tenths r with 10x - 1/2 < 10r <= 10x + 1/2, which is half-up rounding |
| `PriorityEngine.RoundTenthUnique` | src/main/java/com/erikmlarson5/deadlinemanager/service/ProjectService.java:249 | any whole number of tenths inside that window is the rounded value |
| `PriorityEngine.RoundTenthInRange` | src/main/java/com/erikmlarson5/deadlinemanager/service/ProjectService.java:249 | rounding keeps a value from [0, 10] inside [0, 10] |
| `PriorityEngine.RoundTenthMonotone` | src/main/java/com/erikmlarson5/deadlinemanager/service/ProjectService.java:249 | rounding never reverses an order |
| `PriorityEngine.RawPriority` | src/main/java/com/erikmlarson5/deadlinemanager/service/ProjectService.java:222-247 | the unrounded score of a project that is not overdue is at least 0.55 |
| `PriorityEngine.CalculatePriority` | src/main/java/com/erikmlarson5/deadlinemanager/service/ProjectService.java:213-250 | lies in [0, 10], is a whole number of tenths, and is exactly 10 for an overdue project |
| `PriorityEngine.RawPriorityNonIncreasing` | src/main/java/com/erikmlarson5/deadlinemanager/service/ProjectService.java:222-247 | the raw score never rises as the days left grow |
| `PriorityEngine.PriorityNonIncreasingInDueDate` | src/main/java/com/erikmlarson5/deadlinemanager/service/ProjectService.java:213-250 | moving the due date later, all else fixed, never raises the priority |
| `PriorityEngine.PriorityIgnoresStatusAndCache` | src/main/java/com/erikmlarson5/deadlinemanager/service/ProjectService.java:213-250 | neither a project's status nor its cached priority affects the score |
| `PriorityEngine.Recomputed` | src/main/java/com/erikmlarson5/deadlinemanager/service/ProjectService.java:163-164 | the refreshed project differs from the old one only in its priority, which then agrees with the engine |
| `PriorityEngine.WorkedExample` | src/main/java/com/erikmlarson5/deadlinemanager/service/ProjectService.java:213-250 | due in 14 days with difficulty 5 and no tasks: weight 50 gives 6.2 and weight 5 gives 4.3 |
| `Stores.TasksBelow` | src/main/java/com/erikmlarson5/deadlinemanager/entity/Task.java:40-42 | lists only tasks of the given owner, in ascending id order, and no longer than the id bound |
| `Stores.TasksOfMembers` | src/main/java/com/erikmlarson5/deadlinemanager/entity/Task.java:40-42 | in a valid store, a project's list holds exactly the stored tasks whose owner it is |
| `Stores.TasksOfAfterInsert` | src/main/java/com/erikmlarson5/deadlinemanager/service/TaskService.java:58 | a task stored under the next fresh id joins the end of its owner's list, and every other list is unchanged |
| `Stores.TasksOfUnowned` | src/main/java/com/erikmlarson5/deadlinemanager/service/ProjectService.java:258 | a project owning no stored task has an empty list |
| `Stores.TasksOfOthersUnchanged` | src/main/java/com/erikmlarson5/deadlinemanager/entity/Task.java:40-42 | a change confined to one project's tasks leaves every other project's list unchanged |
| `Stores.AllSyncedAfterLocalChange` | src/main/java/com/erikmlarson5/deadlinemanager/service/TaskService.java:217-219 | a change confined to one project and its tasks, after which that project is in step, keeps a fully in-step store fully in step |
| `ProjectService.CreateProject` | src/main/java/com/erikmlarson5/deadlinemanager/service/ProjectService.java:42-52 | a bad status gives BadRequest before a duplicate title and course gives Conflict; otherwise exactly one project is added under the next id, with the caller's fields, no tasks, a priority in step with the engine, and title-course uniqueness kept |
| `ProjectService.GetProjectById` | src/main/java/com/erikmlarson5/deadlinemanager/service/ProjectService.java:59-63 | returns the stored project, and a missing id gives BadRequest |
| `ProjectService.UpdateProject` | src/main/java/com/erikmlarson5/deadlinemanager/service/ProjectService.java:151-168 | a missing id gives NotFound and a bad status BadRequest; otherwise only that project changes, it takes the caller's fields, and its priority is in step over its current tasks |
| `ProjectService.UpdateProjectStatus` | src/main/java/com/erikmlarson5/deadlinemanager/service/ProjectService.java:176-184 | a missing id gives NotFound and a bad status BadRequest; otherwise only that project's status changes, and its priority is left as it was |
| `ProjectService.UpdateAllProjectPriorities` | src/main/java/com/erikmlarson5/deadlinemanager/service/ProjectService.java:189-196 | afterwards every project's priority is in step for the given date, and nothing but priorities changed |
| `ProjectService.DeleteProject` | src/main/java/com/erikmlarson5/deadlinemanager/service/ProjectService.java:202-206 | a missing id gives NotFound; otherwise the project and exactly its own tasks are removed, and the rest is kept as it was |
| `TaskService.CreateTask` | src/main/java/com/erikmlarson5/deadlinemanager/service/TaskService.java:49-66 | an unknown project or a bad status gives BadRequest; otherwise the new task, with the caller's fields, joins the end of the project's list, and the project's priority is in step with the task included |
| `TaskService.GetTaskById` | src/main/java/com/erikmlarson5/deadlinemanager/service/TaskService.java:74-86 | returns the task exactly when the project and task exist and the task belongs to the project, and otherwise gives BadRequest |
| `TaskService.IncompleteTasksInProject` | src/main/java/com/erikmlarson5/deadlinemanager/service/TaskService.java:134-145 | holds exactly the stored tasks of the project that are not COMPLETED, and is empty for an unknown project |
| `TaskService.UpdateTask` | src/main/java/com/erikmlarson5/deadlinemanager/service/TaskService.java:154-177 | a missing task, then a missing project, gives NotFound, and a bad status BadRequest; otherwise, whoever owned the task, every field is replaced and the task moves under the path project, and only that project's priority is recomputed (in step) |
| `TaskService.UpdateTaskStatus` | src/main/java/com/erikmlarson5/deadlinemanager/service/TaskService.java:186-198 | a missing task gives NotFound, and another project's task or a bad status gives BadRequest; otherwise only that task's status changes and no project changes |
| `TaskService.DeleteChecks` | src/main/java/com/erikmlarson5/deadlinemanager/service/TaskService.java:206-215 | the project check, then the task check (both NotFound), then the ownership check (BadRequest); the first that fails decides |
| `TaskService.DeleteTask` | src/main/java/com/erikmlarson5/deadlinemanager/service/TaskService.java:205-222 | fails exactly as the checks say; otherwise the task is removed, and the project's priority is the score over the old list, which still contains the deleted task, and no other field of the project changes |
| `TaskService.DeleteTaskFixed` | src/main/java/com/erikmlarson5/deadlinemanager/service/TaskService.java:205-222 | fails exactly as the checks say; otherwise the task is removed and the project's priority is in step with the remaining tasks |
| `Consistency.CreateProjectKeepsSync` | src/main/java/com/erikmlarson5/deadlinemanager/service/ProjectService.java:42-52 | creating a project keeps a fully in-step store fully in step |
| `Consistency.UpdateProjectKeepsSync` | src/main/java/com/erikmlarson5/deadlinemanager/service/ProjectService.java:151-168 | replacing a project's fields keeps a fully in-step store fully in step |
| `Consistency.UpdateProjectStatusKeepsSync` | src/main/java/com/erikmlarson5/deadlinemanager/service/ProjectService.java:176-184 | the project status patch keeps a fully in-step store fully in step, although it recomputes nothing |
| `Consistency.DeleteProjectKeepsSync` | src/main/java/com/erikmlarson5/deadlinemanager/service/ProjectService.java:202-206 | deleting a project with its tasks keeps a fully in-step store fully in step |
| `Consistency.CreateTaskKeepsSync` | src/main/java/com/erikmlarson5/deadlinemanager/service/TaskService.java:49-66 | creating a task keeps a fully in-step store fully in step |
| `Consistency.UpdateTaskInPlaceKeepsSync` | src/main/java/com/erikmlarson5/deadlinemanager/service/TaskService.java:154-177 | a full task update that leaves the task under its own project keeps a fully in-step store fully in step |
| `Consistency.DeleteTaskFixedKeepsSync` | src/main/java/com/erikmlarson5/deadlinemanager/service/TaskService.java:205-222 | the corrected deletion keeps a fully in-step store fully in step |
| `Consistency.SampleScores` | src/main/java/com/erikmlarson5/deadlinemanager/service/ProjectService.java:213-250 | the sample project scores 2.2 with its one open task, 2.1 with no tasks, and 0.6 once the task is COMPLETED |
| `Consistency.DeleteTaskLeavesStalePriority` | src/main/java/com/erikmlarson5/deadlinemanager/service/TaskService.java:217-221 | in a store that is fully in step, deleting the only task leaves the cached priority out of step |
| `Consistency.UpdateTaskStatusLeavesStalePriority` | src/main/java/com/erikmlarson5/deadlinemanager/service/TaskService.java:186-198 | marking the only task COMPLETED leaves the project's cached priority out of step |
| `Consistency.UpdateTaskLeavesOldOwnerStale` | src/main/java/com/erikmlarson5/deadlinemanager/service/TaskService.java:169-173 | in a store that is fully in step, moving a task to another project leaves its previous owner's cached priority out of step |
| `Consistency.TimeAloneCanLeaveStalePriority` | src/main/java/com/erikmlarson5/deadlinemanager/service/ProjectService.java:189-196 | a store that is in step today is out of step once the due date has passed, which is why the bulk refresh exists |
| `Consistency.UpdateProjectCanDuplicateTitleCourse` | src/main/java/com/erikmlarson5/deadlinemanager/service/ProjectService.java:151-168 | a full project update can give two projects the same title and course, which creation refuses |

## Findings

| source | as written | input that shows it | evidently intended | confidence | as-written member | corrected member |
|---|---|---|---|---|---|---|
| src/main/java/com/erikmlarson5/deadlinemanager/service/TaskService.java:217-221 | `deleteTask` recomputes the project's priority while the task is still in the list, and only then deletes the task | a project due in 14 days, weight 0, difficulty 1, whose only task is due today, NOT_STARTED, with 0 hours; its cached priority is 2.2, and after the delete it stays 2.2, while the engine gives 2.1 for the empty list | recompute after the removal, as every other write path that changes a task list does, so the cache is in step with the remaining tasks | medium; not executed | `TaskService.DeleteTask`, `Consistency.DeleteTaskLeavesStalePriority` | `TaskService.DeleteTaskFixed`, `Consistency.DeleteTaskFixedKeepsSync` |

## Left out

- Controllers, DTO validation and the exception handler are HTTP plumbing. Only
  the exception-to-status mapping is kept, as the error kinds.
- Repositories are replaced by the in-memory store. The list queries that only
  forward to one (`getAllProjects`, `getProjectsInCourse`,
  `getProjectsByStatus`, `getCompletedProjects`, `getProjectsSortedByPriority`,
  `getAllTasks`, `getAllTasksByStatus`, `getTasksInProject`) are not modelled
  beyond `TasksOf`. `getProjectsDueInDays` is left out because its date window
  is a database query.
- `@Transactional` atomicity and concurrency are not modelled. Each operation
  is one all-or-nothing transition, with no interleavings.
- `LocalDate.now()` is the `today` parameter. The `createdAt` and `updatedAt`
  timestamps are dropped.
- IEEE float and double arithmetic is left out. Scores, weights and hours are
  exact reals, and float rounding error is not reproduced.
- Task lists are never null. A project created without a task collection would
  make `calculateProgressScore` throw; the model treats that collection as
  empty. `Project.java` declares no task collection at all, so the
  model assumes the one the services use.
- Deleting a project also deletes its tasks. Every task must have an owner
  (`Task.java` declares the project column non-nullable), so removing the
  tasks with their project is the only outcome that keeps the store valid.
  `Project.java` declares no cascade, and the model assumes one.
- The JPA persistence context is not modelled. In the model, `updateTask`
  recomputes the target project over the store after the move, so a task moved
  in from another project is counted. Whether the target's in-memory
  collection already holds that task in the running system depends on JPA
  loading behaviour.
- `Statuses.Parse`: upper-casing covers the ASCII letters only. Java's
  locale-dependent and special-case mappings are not modelled: 'ı' and 'ſ'
  upper-case to 'I' and 'S', and 'ﬆ' upper-cases to "ST".
- `Stores.TasksOfMembers`: the source does not fix the order of
  `project.getTasks()` or `findByProject_ProjectId`. The model uses ascending
  id order.
