/** The in-memory store standing in for the two repositories, and the facts
    about a project's task list that every write path relies on.

    Ids are handed out by counters, as the database's identity columns do, so
    every stored id is below its counter. `project.getTasks()` is modelled as
    the tasks whose owner is the project, in ascending id order. */
module Stores {
  import opened Outcomes
  import opened Entities
  import opened PriorityEngine

  datatype Store = Store(
    projects: map<nat, Project>,
    tasks: map<nat, Task>,
    nextProjectId: nat,
    nextTaskId: nat)

  /** Ids lie below their counters, and every task's owner exists
      (the join column is not nullable). */
  predicate Valid(s: Store)
  {
    && (forall id :: id in s.projects ==> id < s.nextProjectId)
    && (forall id :: id in s.tasks ==> id < s.nextTaskId)
    && (forall id :: id in s.tasks ==> s.tasks[id].owner in s.projects)
  }

  /** The task stored under `id`, if it belongs to project `pid`. */
  function OwnedAt(tasks: map<nat, Task>, pid: nat, id: nat): Option<Task>
  {
    if id in tasks && tasks[id].owner == pid then Some(tasks[id]) else None
  }

  /** The tasks of `pid` with an id below `n`, in ascending id order. */
  function TasksBelow(tasks: map<nat, Task>, pid: nat, n: nat): (r: seq<Task>)
    ensures forall t :: t in r ==> t.owner == pid
    ensures |r| <= n
  {
    if n == 0 then []
    else
      TasksBelow(tasks, pid, n - 1) +
      (match OwnedAt(tasks, pid, n - 1) case Some(t) => [t] case None => [])
  }

  /** The task list of project `pid`. */
  function TasksOf(s: Store, pid: nat): seq<Task>
  {
    TasksBelow(s.tasks, pid, s.nextTaskId)
  }

  /** A task is listed exactly when some id below the bound holds it for `pid`. */
  lemma {:induction false} TasksBelowMembers(tasks: map<nat, Task>, pid: nat, n: nat)
    ensures forall t :: t in TasksBelow(tasks, pid, n) <==>
      exists id: nat :: id < n && OwnedAt(tasks, pid, id) == Some(t)
  {
    if n > 0 {
      TasksBelowMembers(tasks, pid, n - 1);
    }
  }

  /** In a valid store the task list of `pid` holds exactly the stored tasks
      whose owner is `pid`. */
  lemma TasksOfMembers(s: Store, pid: nat)
    requires Valid(s)
    ensures forall t :: t in TasksOf(s, pid) <==>
      exists id :: id in s.tasks && s.tasks[id] == t && t.owner == pid
  {
    TasksBelowMembers(s.tasks, pid, s.nextTaskId);
    forall t | exists id :: id in s.tasks && s.tasks[id] == t && t.owner == pid
      ensures t in TasksOf(s, pid)
    {
      var id :| id in s.tasks && s.tasks[id] == t && t.owner == pid;
      assert OwnedAt(s.tasks, pid, id) == Some(t);
    }
  }

  /** Two task maps that agree on what `pid` owns below `n` list the same tasks. */
  lemma {:induction false} TasksBelowFrame(m1: map<nat, Task>, m2: map<nat, Task>, pid: nat, n: nat)
    requires forall id: nat :: id < n ==> OwnedAt(m1, pid, id) == OwnedAt(m2, pid, id)
    ensures TasksBelow(m1, pid, n) == TasksBelow(m2, pid, n)
  {
    if n > 0 {
      TasksBelowFrame(m1, m2, pid, n - 1);
    }
  }

  /** A project with no stored tasks has an empty task list. */
  lemma TasksOfUnowned(s: Store, pid: nat)
    requires forall id :: id in s.tasks ==> s.tasks[id].owner != pid
    ensures TasksOf(s, pid) == []
  {
    TasksBelowFrame(s.tasks, map[], pid, s.nextTaskId);
    EmptyMapListsNothing(pid, s.nextTaskId);
  }

  /** An empty task map lists nothing for any project. */
  lemma {:induction false} EmptyMapListsNothing(pid: nat, n: nat)
    ensures TasksBelow(map[], pid, n) == []
  {
    if n > 0 {
      EmptyMapListsNothing(pid, n - 1);
    }
  }

  /** Storing a task under the next fresh id appends it to its owner's list and
      leaves every other list as it was. */
  lemma TasksOfAfterInsert(s: Store, t: Task, q: nat)
    requires Valid(s)
    ensures TasksOf(s.(tasks := s.tasks[s.nextTaskId := t], nextTaskId := s.nextTaskId + 1), q)
      == TasksOf(s, q) + (if t.owner == q then [t] else [])
  {
    var k := s.nextTaskId;
    var m := s.tasks[k := t];
    TasksBelowFrame(m, s.tasks, q, k);
  }

  /** Changing only the tasks of one project leaves every other project's list as it was. */
  lemma TasksOfOthersUnchanged(s: Store, s': Store, pid: nat, q: nat)
    requires s'.nextTaskId == s.nextTaskId && q != pid
    requires forall id :: id in s.tasks && s.tasks[id].owner != pid ==> id in s'.tasks && s'.tasks[id] == s.tasks[id]
    requires forall id :: id in s'.tasks && s'.tasks[id].owner != pid ==> id in s.tasks && s.tasks[id] == s'.tasks[id]
    ensures TasksOf(s', q) == TasksOf(s, q)
  {
    forall id: nat | id < s.nextTaskId
      ensures OwnedAt(s.tasks, q, id) == OwnedAt(s'.tasks, q, id)
    {
    }
    TasksBelowFrame(s.tasks, s'.tasks, q, s.nextTaskId);
  }

  /** The cached priority of project `pid` is what the engine computes now. */
  predicate Synced(s: Store, today: int, pid: nat)
    requires pid in s.projects
  {
    s.projects[pid].priority == CalculatePriority(today, s.projects[pid], TasksOf(s, pid))
  }

  /** A project whose record and task list are both unchanged stays in step. */
  lemma SyncedCarriesOver(s: Store, s': Store, today: int, q: nat)
    requires q in s.projects && q in s'.projects && Synced(s, today, q)
    requires s'.projects[q] == s.projects[q] && TasksOf(s', q) == TasksOf(s, q)
    ensures Synced(s', today, q)
  {
  }

  /** Every cached priority is current. */
  predicate AllSynced(s: Store, today: int)
  {
    forall pid :: pid in s.projects ==> Synced(s, today, pid)
  }

  /** Some stored project already has this title and course
      (`existsByTitleAndCourse`; a missing course matches a missing course). */
  predicate TitleCourseTaken(s: Store, title: string, course: Option<string>)
  {
    exists id :: id in s.projects && s.projects[id].title == title && s.projects[id].course == course
  }

  /** A change confined to project `pid` and its tasks, after which `pid` is in
      step, leaves every project in step. */
  lemma AllSyncedAfterLocalChange(s: Store, s': Store, today: int, pid: nat)
    requires pid in s'.projects && Synced(s', today, pid)
    requires s'.projects.Keys == s.projects.Keys && s'.nextTaskId == s.nextTaskId
    requires forall q :: q in s.projects && q != pid ==> s'.projects[q] == s.projects[q]
    requires forall id :: id in s.tasks && s.tasks[id].owner != pid ==> id in s'.tasks && s'.tasks[id] == s.tasks[id]
    requires forall id :: id in s'.tasks && s'.tasks[id].owner != pid ==> id in s.tasks && s.tasks[id] == s'.tasks[id]
    ensures AllSynced(s, today) ==> AllSynced(s', today)
  {
    forall q | AllSynced(s, today) && q in s'.projects && q != pid
      ensures Synced(s', today, q)
    {
      TasksOfOthersUnchanged(s, s', pid, q);
      SyncedCarriesOver(s, s', today, q);
    }
  }

  /** No two stored projects share a title and course. */
  predicate UniqueTitleCourse(s: Store)
  {
    forall a, b :: a in s.projects && b in s.projects && a != b ==>
      (s.projects[a].title, s.projects[a].course) != (s.projects[b].title, s.projects[b].course)
  }
}
