/** The consistency contract: which write paths keep every cached priority
    equal to what the engine computes, and which can leave one stale. */
module Consistency {
  import opened Outcomes
  import opened Statuses
  import opened Entities
  import opened PriorityEngine
  import opened Stores
  import ProjectService
  import TaskService

  /** Creating a project keeps every cache current. */
  lemma CreateProjectKeepsSync(s: Store, today: int, input: ProjectInput)
    requires Valid(s) && AllSynced(s, today)
    requires ProjectService.CreateProject(s, today, input).Ok?
    ensures AllSynced(ProjectService.CreateProject(s, today, input).value, today)
  {
    var s' := ProjectService.CreateProject(s, today, input).value;
    forall q | q in s'.projects
      ensures Synced(s', today, q)
    {
      if q in s.projects {
        assert TasksOf(s', q) == TasksOf(s, q);
      }
    }
  }

  /** Replacing a project's fields keeps every cache current. */
  lemma UpdateProjectKeepsSync(s: Store, today: int, id: nat, input: ProjectInput)
    requires Valid(s) && AllSynced(s, today)
    requires ProjectService.UpdateProject(s, today, id, input).Ok?
    ensures AllSynced(ProjectService.UpdateProject(s, today, id, input).value, today)
  {
    var s' := ProjectService.UpdateProject(s, today, id, input).value;
    assert forall q :: TasksOf(s', q) == TasksOf(s, q);
  }

  /** A project's status does not enter its priority, so the status-only patch
      keeps every cache current although it recomputes nothing. */
  lemma UpdateProjectStatusKeepsSync(s: Store, today: int, id: nat, status: string)
    requires Valid(s) && AllSynced(s, today)
    requires ProjectService.UpdateProjectStatus(s, id, status).Ok?
    ensures AllSynced(ProjectService.UpdateProjectStatus(s, id, status).value, today)
  {
    var s' := ProjectService.UpdateProjectStatus(s, id, status).value;
    var p := s.projects[id];
    PriorityIgnoresStatusAndCache(today, p, TasksOf(s, id), s'.projects[id].status, p.priority);
    assert forall q :: TasksOf(s', q) == TasksOf(s, q);
  }

  /** Deleting a project, with its tasks, keeps every remaining cache current. */
  lemma DeleteProjectKeepsSync(s: Store, today: int, id: nat)
    requires Valid(s) && AllSynced(s, today)
    requires ProjectService.DeleteProject(s, id).Ok?
    ensures AllSynced(ProjectService.DeleteProject(s, id).value, today)
  {
    var s' := ProjectService.DeleteProject(s, id).value;
    forall q | q in s'.projects
      ensures Synced(s', today, q)
    {
      TasksOfOthersUnchanged(s, s', id, q);
      SyncedCarriesOver(s, s', today, q);
    }
  }

  /** Creating a task keeps every cache current: its owner is recomputed and
      no other project's list changes. */
  lemma CreateTaskKeepsSync(s: Store, today: int, pid: nat, input: TaskInput)
    requires Valid(s) && AllSynced(s, today)
    requires TaskService.CreateTask(s, today, pid, input).Ok?
    ensures AllSynced(TaskService.CreateTask(s, today, pid, input).value, today)
  {
    var s' := TaskService.CreateTask(s, today, pid, input).value;
    var t := s'.tasks[s.nextTaskId];
    assert s'.tasks == s.tasks[s.nextTaskId := t];
    var s1 := s.(tasks := s.tasks[s.nextTaskId := t], nextTaskId := s.nextTaskId + 1);
    assert s'.tasks == s1.tasks && s'.nextTaskId == s1.nextTaskId;
    forall q | q in s'.projects && q != pid
      ensures Synced(s', today, q)
    {
      TasksOfAfterInsert(s, t, q);
      SyncedCarriesOver(s, s', today, q);
    }
  }

  /** A full task update that leaves the task under its own project keeps
      every cache current: only that project's list changes, and it is the
      one recomputed. */
  lemma UpdateTaskInPlaceKeepsSync(s: Store, today: int, pid: nat, tid: nat, input: TaskInput)
    requires Valid(s) && AllSynced(s, today)
    requires tid in s.tasks && s.tasks[tid].owner == pid
    requires TaskService.UpdateTask(s, today, pid, tid, input).Ok?
    ensures AllSynced(TaskService.UpdateTask(s, today, pid, tid, input).value, today)
  {
    var s' := TaskService.UpdateTask(s, today, pid, tid, input).value;
    assert s'.tasks[tid].owner == pid;
    assert forall id :: id in s.tasks && s.tasks[id].owner != pid ==> id != tid;
    assert forall id :: id in s'.tasks && s'.tasks[id].owner != pid ==> id != tid;
    AllSyncedAfterLocalChange(s, s', today, pid);
  }

  /** Deleting a task with the corrected order keeps every cache current. */
  lemma DeleteTaskFixedKeepsSync(s: Store, today: int, pid: nat, tid: nat)
    requires Valid(s) && AllSynced(s, today)
    requires TaskService.DeleteTaskFixed(s, today, pid, tid).Ok?
    ensures AllSynced(TaskService.DeleteTaskFixed(s, today, pid, tid).value, today)
  {
    var s' := TaskService.DeleteTaskFixed(s, today, pid, tid).value;
    AllSyncedAfterLocalChange(s, s', today, pid);
  }

  // A small store used by the counterexamples below: project 0, due in 14
  // days with weight 0 and difficulty 1, owning task 0 (due today, 0 hours,
  // NOT_STARTED), with its cache current. Every field lies within the bounds
  // the request validation accepts. Its score with the task is 2.2 (workload
  // 1, progress 10); without any task it is 2.1 (workload 5.5, progress 5).

  function SampleProject(today: int): Project
  {
    Project("p", "d", None, today + 14, 0.0, 1, NotStarted, 2.2)
  }

  function SampleTask(today: int): Task
  {
    Task("t", "d", today, 0.0, 1, NotStarted, 0)
  }

  function SampleStore(today: int): Store
  {
    Store(map[0 := SampleProject(today)], map[0 := SampleTask(today)], 1, 1)
  }

  /** The sample's task list and the two scores quoted above. */
  lemma SampleScores(today: int)
    ensures TasksOf(SampleStore(today), 0) == [SampleTask(today)]
    ensures CalculatePriority(today, SampleProject(today), [SampleTask(today)]) == 2.2
    ensures CalculatePriority(today, SampleProject(today), []) == 2.1
    ensures CalculatePriority(today, SampleProject(today), [SampleTask(today).(status := Completed)]) == 0.6
  {
    var p, t := SampleProject(today), SampleTask(today);
    assert DifficultyMultiplier(1) == 1.05;
    assert TasksBelow(SampleStore(today).tasks, 0, 0) == [];
    assert [t][..0] == [];
    assert CompletedCount([t]) == 0;
    assert HoursLeft([t]) == 0.0;
    assert RemainingWork([t]) == 0.0;
    assert BaseScore(1.0, 0.0, 1.0, 10.0) == 2.05;
    assert Boost(2.05, 1.05) == 2.1525;
    assert RawPriority(14, p, [t]) == 2.1525;
    RoundTenthUnique(2.1525, 22);
    assert BaseScore(1.0, 0.0, 5.5, 5.0) == 1.975;
    assert Boost(1.975, 1.05) == 2.07375;
    assert RawPriority(14, p, []) == 2.07375;
    RoundTenthUnique(2.07375, 21);
    var c := t.(status := Completed);
    assert [c][..0] == [];
    assert HoursLeft([c]) == 0.0;
    assert RemainingWork([c]) == 0.0;
    assert CompletedCount([c]) == 1;
    assert ProgressScore([c]) == 0.0;
    assert BaseScore(1.0, 0.0, 1.0, 0.0) == 0.55;
    assert Boost(0.55, 1.05) == 0.5775;
    assert RawPriority(14, p, [c]) == 0.5775;
    RoundTenthUnique(0.5775, 6);
  }

  /** Deleting the only task of a synced project leaves the cache at the score
      computed with the task (2.2), while the remaining empty list scores 2.1. */
  lemma DeleteTaskLeavesStalePriority(today: int)
    ensures Valid(SampleStore(today)) && AllSynced(SampleStore(today), today)
    ensures TaskService.DeleteTask(SampleStore(today), today, 0, 0).Ok?
    ensures !Synced(TaskService.DeleteTask(SampleStore(today), today, 0, 0).value, today, 0)
  {
    SampleScores(today);
    var s' := TaskService.DeleteTask(SampleStore(today), today, 0, 0).value;
    TasksOfUnowned(s', 0);
  }

  /** Marking the only task COMPLETED recomputes nothing: the cache stays at
      2.2 although the engine now gives 0.6. */
  lemma UpdateTaskStatusLeavesStalePriority(today: int)
    ensures var r := TaskService.UpdateTaskStatus(SampleStore(today), 0, 0, "completed");
      r.Ok? && !Synced(r.value, today, 0)
  {
    var s := SampleStore(today);
    assert ToUpper("completed") == "COMPLETED";
    var r := TaskService.UpdateTaskStatus(s, 0, 0, "completed");
    assert r.Ok?;
    var s' := r.value;
    var c := SampleTask(today).(status := Completed);
    assert s'.tasks == map[0 := c];
    assert TasksBelow(s'.tasks, 0, 0) == [];
    assert TasksOf(s', 0) == [c];
    assert s'.projects[0] == SampleProject(today);
    assert CalculatePriority(today, SampleProject(today), [c]) == 0.6 by {
      SampleScores(today);
    }
  }

  /** The sample with a second, empty project 1 whose cache is current. */
  function TwoProjectStore(today: int): Store
  {
    SampleStore(today).(projects := map[0 := SampleProject(today), 1 := SampleProject(today).(priority := 2.1)],
                        nextProjectId := 2)
  }

  /** The two-project sample is valid and every cache in it is current. */
  lemma TwoProjectStoreIsSynced(today: int)
    ensures Valid(TwoProjectStore(today)) && AllSynced(TwoProjectStore(today), today)
  {
    SampleScores(today);
    var s := TwoProjectStore(today);
    assert TasksOf(s, 0) == TasksOf(SampleStore(today), 0);
    TasksOfUnowned(s, 1);
  }

  /** The sample task's own fields, as a full-replace request. */
  function SampleTaskInput(today: int): TaskInput
  {
    TaskInput("t", "d", today, 0.0, 1, "NOT_STARTED")
  }

  /** What the move does to the two-project sample: the task is now owned by
      project 1 and project 0's record is untouched. */
  lemma MoveToProjectOne(today: int)
    ensures var r := TaskService.UpdateTask(TwoProjectStore(today), today, 1, 0, SampleTaskInput(today));
      && r.Ok?
      && r.value.projects.Keys == {0, 1}
      && r.value.projects[0] == SampleProject(today)
      && r.value.tasks.Keys == {0} && r.value.tasks[0].owner == 1
  {
    var s := TwoProjectStore(today);
    assert Valid(s);
    assert ToUpper("NOT_STARTED") == "NOT_STARTED";
    var r := TaskService.UpdateTask(s, today, 1, 0, SampleTaskInput(today));
    assert r.Ok?;
    assert r.value.projects[0] == s.projects[0];
  }

  /** Moving the task from project 0 to project 1 recomputes only project 1;
      project 0 keeps the score of a list it no longer has. */
  lemma UpdateTaskLeavesOldOwnerStale(today: int)
    ensures Valid(TwoProjectStore(today)) && AllSynced(TwoProjectStore(today), today)
    ensures var r := TaskService.UpdateTask(TwoProjectStore(today), today, 1, 0, SampleTaskInput(today));
      r.Ok? && !Synced(r.value, today, 0)
  {
    TwoProjectStoreIsSynced(today);
    MoveToProjectOne(today);
    var s' := TaskService.UpdateTask(TwoProjectStore(today), today, 1, 0, SampleTaskInput(today)).value;
    TasksOfUnowned(s', 0);
    assert CalculatePriority(today, SampleProject(today), []) == 2.1 by {
      SampleScores(today);
    }
  }

  /** The passage of time alone can make a cache stale: one day past the due
      date the sample scores 10. */
  lemma TimeAloneCanLeaveStalePriority(today: int)
    ensures AllSynced(SampleStore(today), today)
    ensures !AllSynced(SampleStore(today), today + 15)
  {
    SampleScores(today);
    assert CalculatePriority(today + 15, SampleProject(today), [SampleTask(today)]) == 10.0;
    assert !Synced(SampleStore(today), today + 15, 0);
  }

  /** `updateProject` does not repeat the duplicate check of `createProject`, so
      it can give two projects the same title and course. */
  lemma UpdateProjectCanDuplicateTitleCourse(today: int)
    ensures UniqueTitleCourse(TwoProjectStore(today).(projects := TwoProjectStore(today).projects[1 := SampleProject(today).(title := "q")]))
    ensures var r := ProjectService.UpdateProject(
        TwoProjectStore(today).(projects := TwoProjectStore(today).projects[1 := SampleProject(today).(title := "q")]),
        today, 1, ProjectInput("p", "d", None, today + 14, 0.0, 1, "NOT_STARTED"));
      r.Ok? && !UniqueTitleCourse(r.value)
  {
    var s := TwoProjectStore(today).(projects := TwoProjectStore(today).projects[1 := SampleProject(today).(title := "q")]);
    assert ToUpper("NOT_STARTED") == "NOT_STARTED";
    var r := ProjectService.UpdateProject(s, today, 1, ProjectInput("p", "d", None, today + 14, 0.0, 1, "NOT_STARTED"));
    assert r.Ok?;
    assert r.value.projects[0].title == r.value.projects[1].title;
    assert r.value.projects[0].course == r.value.projects[1].course;
  }
}
