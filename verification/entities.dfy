/** The two persisted entities and the caller's input records.

    A calendar date is an integer day number. The surrogate ids assigned by the
    database are the keys of the store's maps, not fields; a task's `@ManyToOne`
    back-reference is its owner's id. Timestamps are not modelled. */
module Entities {
  import opened Outcomes
  import opened Statuses

  datatype Project = Project(
    title: string,
    description: string,
    course: Option<string>,   // nullable column
    due: int,
    weight: real,             // grade-percentage weight, 0..100 at input
    difficulty: int,          // 1..10 at input
    status: Status,
    priority: real)           // cached output of the priority engine

  datatype Task = Task(
    title: string,
    description: string,
    due: int,
    estimatedHours: real,     // 0..1000 at input
    difficulty: int,
    status: Status,
    owner: nat)               // id of the owning project

  /** The fields a caller supplies to create or fully replace a project. */
  datatype ProjectInput = ProjectInput(
    title: string,
    description: string,
    course: Option<string>,
    due: int,
    weight: real,
    difficulty: int,
    status: string)

  /** The fields a caller supplies to create or fully replace a task. */
  datatype TaskInput = TaskInput(
    title: string,
    description: string,
    due: int,
    estimatedHours: real,
    difficulty: int,
    status: string)

  predicate IsCompleted(t: Task)
  {
    t.status == Completed
  }

  /** The tasks that are not COMPLETED, in their original order. */
  function Incomplete(ts: seq<Task>): (r: seq<Task>)
    ensures forall t :: t in r <==> t in ts && !IsCompleted(t)
    ensures |r| + CompletedCount(ts) == |ts|
  {
    if |ts| == 0 then []
    else
      var init := ts[..|ts| - 1];
      assert ts == init + [ts[|ts| - 1]];
      Incomplete(init) + (if IsCompleted(ts[|ts| - 1]) then [] else [ts[|ts| - 1]])
  }

  /** The number of COMPLETED tasks. */
  function CompletedCount(ts: seq<Task>): (r: nat)
    ensures r <= |ts|
    ensures r == 0 <==> forall i :: 0 <= i < |ts| ==> !IsCompleted(ts[i])
    ensures r == |ts| <==> forall i :: 0 <= i < |ts| ==> IsCompleted(ts[i])
  {
    if |ts| == 0 then 0
    else
      var init := ts[..|ts| - 1];
      assert forall i :: 0 <= i < |init| ==> init[i] == ts[i];
      CompletedCount(init) + (if IsCompleted(ts[|ts| - 1]) then 1 else 0)
  }

  /** The sum of `estimatedHours` over every task given. */
  function TotalHours(ts: seq<Task>): real
  {
    if |ts| == 0 then 0.0 else TotalHours(ts[..|ts| - 1]) + ts[|ts| - 1].estimatedHours
  }

  /** The sum of `estimatedHours` over the tasks that are not COMPLETED. */
  function HoursLeft(ts: seq<Task>): (r: real)
    ensures (forall i :: 0 <= i < |ts| ==> ts[i].estimatedHours >= 0.0) ==> r >= 0.0
  {
    if |ts| == 0 then 0.0
    else
      var init := ts[..|ts| - 1];
      assert forall i :: 0 <= i < |init| ==> init[i] == ts[i];
      HoursLeft(init) + (if IsCompleted(ts[|ts| - 1]) then 0.0 else ts[|ts| - 1].estimatedHours)
  }

  /** Filtering distributes over concatenation, so it keeps the original order. */
  lemma {:induction false} IncompleteAppend(a: seq<Task>, b: seq<Task>)
    ensures Incomplete(a + b) == Incomplete(a) + Incomplete(b)
    decreases |b|
  {
    if |b| == 0 {
      assert a + b == a;
    } else {
      var b' := b[..|b| - 1];
      assert (a + b)[..|a + b| - 1] == a + b';
      assert (a + b)[|a + b| - 1] == b[|b| - 1];
      IncompleteAppend(a, b');
    }
  }

  /** A single task is kept exactly when it is not COMPLETED. */
  lemma IncompleteSingleton(t: Task)
    ensures Incomplete([t]) == if IsCompleted(t) then [] else [t]
  {
    assert [t][..0] == [];
  }

  /** The hours still to do are the total hours of the incomplete tasks. */
  lemma {:induction false} HoursLeftIsTotalOfIncomplete(ts: seq<Task>)
    ensures HoursLeft(ts) == TotalHours(Incomplete(ts))
    decreases |ts|
  {
    if |ts| > 0 {
      var init := ts[..|ts| - 1];
      var last := ts[|ts| - 1];
      HoursLeftIsTotalOfIncomplete(init);
      var pre := Incomplete(init);
      if IsCompleted(last) {
        assert Incomplete(ts) == pre;
      } else {
        var inc := pre + [last];
        assert Incomplete(ts) == inc;
        assert inc[..|inc| - 1] == pre;
        assert TotalHours(inc) == TotalHours(pre) + last.estimatedHours;
      }
    }
  }
}
