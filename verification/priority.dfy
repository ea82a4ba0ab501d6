/** The priority engine: a score in [0, 10], rounded to tenths, computed from
    the evaluation date, a project's own fields and its task list.

    Every sub-score is a rational piecewise-linear function, so the model uses
    exact `real` arithmetic in place of Java's float and double. */
module PriorityEngine {
  import opened Statuses
  import opened Entities

  /** `Math.min(Math.max(x, lo), hi)`. */
  function Clamp(x: real, lo: real, hi: real): (r: real)
    requires lo <= hi
    ensures lo <= r <= hi
    ensures lo <= x <= hi ==> r == x
    ensures x <= lo ==> r == lo
    ensures hi <= x ==> r == hi
  {
    if x < lo then lo else if x > hi then hi else x
  }

  /** Urgency from the number of days left before the due date. */
  function TimePressure(daysLeft: int): (r: real)
    ensures 1.0 <= r <= 10.0
    ensures daysLeft <= 0 ==> r == 10.0
    ensures daysLeft >= 14 ==> r == 1.0
  {
    if daysLeft <= 0 then 10.0
    else if daysLeft >= 14 then 1.0
    else if daysLeft >= 7 then 2.0 + ((14 - daysLeft) as real / 7.0) * 3.0
    else if daysLeft >= 3 then 5.0 + ((7 - daysLeft) as real / 4.0) * 3.0
    else 8.0 + ((3 - daysLeft) as real / 3.0) * 2.0
  }

  /** Urgency from the estimated hours of work still to do. */
  function Workload(hours: real): (r: real)
    ensures 1.0 <= r <= 10.0
    ensures hours <= 0.0 ==> r == 1.0
    ensures hours > 0.0 ==> r > 2.0
  {
    if hours <= 0.0 then 1.0
    else if hours <= 2.0 then 2.0 + hours
    else if hours <= 8.0 then 4.0 + ((hours - 2.0) / 6.0) * 3.0
    else if hours <= 20.0 then 7.0 + ((hours - 8.0) / 12.0) * 2.0
    else 9.0 + (if (hours - 20.0) / 20.0 < 1.0 then (hours - 20.0) / 20.0 else 1.0)
  }

  /** Estimated hours over the tasks that are not COMPLETED; 5 hours is the
      neutral assumption for a project without tasks. */
  function RemainingWork(ts: seq<Task>): (r: real)
    ensures |ts| == 0 ==> r == 5.0
    ensures |ts| > 0 ==> r == TotalHours(Incomplete(ts))
  {
    if |ts| == 0 then 5.0
    else
      HoursLeftIsTotalOfIncomplete(ts);
      HoursLeft(ts)
  }

  /** The completed fraction c/n of n > 0 tasks lies in [0, 1] and reaches
      each end exactly when c does. */
  lemma FractionBounds(c: nat, n: nat)
    requires 0 < n && c <= n
    ensures 0.0 <= c as real / n as real <= 1.0
    ensures c as real / n as real == 0.0 <==> c == 0
    ensures c as real / n as real == 1.0 <==> c == n
  {
    var q := c as real / n as real;
    assert q * n as real == c as real;
  }

  /** Urgency from the share of tasks not yet COMPLETED; 5 is neutral for a
      project without tasks. */
  function ProgressScore(ts: seq<Task>): (r: real)
    ensures 0.0 <= r <= 10.0
    ensures |ts| == 0 ==> r == 5.0
    ensures |ts| > 0 ==> (r == 0.0 <==> forall i :: 0 <= i < |ts| ==> IsCompleted(ts[i]))
    ensures |ts| > 0 ==> (r == 10.0 <==> forall i :: 0 <= i < |ts| ==> !IsCompleted(ts[i]))
  {
    if |ts| == 0 then 5.0
    else
      var c := CompletedCount(ts);
      FractionBounds(c, |ts|);
      (1.0 - c as real / |ts| as real) * 10.0
  }

  /** The weighted blend of the four sub-scores. */
  function BaseScore(timePressure: real, importance: real, workload: real, progress: real): (r: real)
    requires 1.0 <= timePressure <= 10.0 && 0.0 <= importance <= 10.0
    requires 1.0 <= workload <= 10.0 && 0.0 <= progress <= 10.0
    ensures 0.55 <= r <= 10.0
  {
    timePressure * 0.4 + importance * 0.3 + workload * 0.15 + progress * 0.15
  }

  /** Harder projects are boosted by up to half their score. */
  function DifficultyMultiplier(difficulty: int): (r: real)
    ensures 1.0 <= r <= 1.5
    ensures 0 <= difficulty <= 10 ==> r == 1.0 + difficulty as real / 20.0
  {
    1.0 + Clamp(difficulty as real, 0.0, 10.0) / 20.0
  }

  /** A value that is a whole number of tenths. */
  predicate IsTenth(x: real)
  {
    (10.0 * x).Floor as real == 10.0 * x
  }

  /** `Math.round(x * 10) / 10`: round half up to one decimal place. */
  function RoundTenth(x: real): (r: real)
    ensures IsTenth(r)
    ensures 10.0 * x - 0.5 < 10.0 * r <= 10.0 * x + 0.5
  {
    (10.0 * x + 0.5).Floor as real / 10.0
  }

  /** Half-up rounding has exactly one candidate: the whole number of tenths
      in the half-open window (10x - 1/2, 10x + 1/2]. */
  lemma RoundTenthUnique(x: real, k: int)
    requires 10.0 * x - 0.5 < k as real <= 10.0 * x + 0.5
    ensures RoundTenth(x) == k as real / 10.0
  {
    var m := (10.0 * x + 0.5).Floor;
    assert 10.0 * RoundTenth(x) == m as real;
    assert k - 1 < m < k + 1;
  }

  /** Rounding keeps a score inside [0, 10]. */
  lemma RoundTenthInRange(x: real)
    requires 0.0 <= x <= 10.0
    ensures 0.0 <= RoundTenth(x) <= 10.0
  {
    var m := (10.0 * x + 0.5).Floor;
    assert 0 <= m <= 100;
    assert RoundTenth(x) == m as real / 10.0;
  }

  /** Rounding never reverses an order. */
  lemma RoundTenthMonotone(x: real, y: real)
    requires x <= y
    ensures RoundTenth(x) <= RoundTenth(y)
  {
    assert (10.0 * x + 0.5).Floor <= (10.0 * y + 0.5).Floor;
  }

  /** Scaling by a factor of at least one keeps an order and never shrinks. */
  lemma ScaleMonotone(a: real, b: real, m: real)
    requires 0.0 <= a <= b && m >= 1.0
    ensures a * m <= b * m
    ensures a <= a * m
  {
    assert b * m - a * m == (b - a) * m;
    assert a * m - a == a * (m - 1.0);
  }

  /** The base score scaled by the difficulty multiplier. */
  function Boost(base: real, m: real): (r: real)
    requires base >= 0.55 && m >= 1.0
    ensures r >= base
  {
    ScaleMonotone(base, base, m);
    base * m
  }

  /** A larger base score stays larger after the boost. */
  lemma BoostMonotone(a: real, b: real, m: real)
    requires 0.55 <= a <= b && m >= 1.0
    ensures Boost(a, m) <= Boost(b, m)
  {
    ScaleMonotone(a, b, m);
    var x, y := a * m, b * m;
    assert x <= y;
    assert Boost(a, m) == x;
    assert Boost(b, m) == y;
  }

  /** The unrounded, uncapped score of a project that is not overdue. */
  function RawPriority(daysLeft: int, p: Project, ts: seq<Task>): (r: real)
    ensures r >= 0.55
  {
    var tp := TimePressure(daysLeft);
    var imp := Clamp(p.weight, 0.0, 10.0);
    var wl := Workload(RemainingWork(ts));
    var pr := ProgressScore(ts);
    var base := BaseScore(tp, imp, wl, pr);
    Boost(base, DifficultyMultiplier(p.difficulty))
  }

  /** `calculatePriority`: 10 for an overdue project, otherwise the capped,
      rounded, difficulty-weighted blend of the four sub-scores. */
  function CalculatePriority(today: int, p: Project, ts: seq<Task>): (r: real)
    ensures 0.0 <= r <= 10.0
    ensures IsTenth(r)
    ensures p.due < today ==> r == 10.0
  {
    if p.due < today then 10.0
    else
      var raw := RawPriority(p.due - today, p, ts);
      var capped := if raw < 10.0 then raw else 10.0;
      RoundTenthInRange(capped);
      RoundTenth(capped)
  }

  /** Time pressure never rises as the deadline moves further away. */
  lemma TimePressureNonIncreasing(d1: int, d2: int)
    requires d1 <= d2
    ensures TimePressure(d1) >= TimePressure(d2)
  {
  }

  /** The workload score never falls as the remaining hours grow, and the
      `min(1, ...)` cap holds it at 10 from 40 hours on. */
  lemma WorkloadNonDecreasing(h1: real, h2: real)
    requires h1 <= h2
    ensures Workload(h1) <= Workload(h2)
    ensures h2 >= 40.0 ==> Workload(h2) == 10.0
  {
  }

  /** The raw score never rises as the days left grow. */
  lemma RawPriorityNonIncreasing(d1: int, d2: int, p: Project, ts: seq<Task>)
    requires d1 <= d2
    ensures RawPriority(d1, p, ts) >= RawPriority(d2, p, ts)
  {
    var imp := Clamp(p.weight, 0.0, 10.0);
    var wl := Workload(RemainingWork(ts));
    var pr := ProgressScore(ts);
    var m := DifficultyMultiplier(p.difficulty);
    TimePressureNonIncreasing(d1, d2);
    var t1, t2 := TimePressure(d1), TimePressure(d2);
    var b1 := BaseScore(t1, imp, wl, pr);
    var b2 := BaseScore(t2, imp, wl, pr);
    assert b2 <= b1;
    assert RawPriority(d1, p, ts) == Boost(b1, m);
    assert RawPriority(d2, p, ts) == Boost(b2, m);
    BoostMonotone(b2, b1, m);
  }

  /** Priority never rises as the due date moves later, all else fixed. */
  lemma PriorityNonIncreasingInDueDate(today: int, p: Project, ts: seq<Task>, d1: int, d2: int)
    requires d1 <= d2
    ensures CalculatePriority(today, p.(due := d1), ts) >= CalculatePriority(today, p.(due := d2), ts)
  {
    var p1, p2 := p.(due := d1), p.(due := d2);
    if d1 >= today {
      var r1, r2 := RawPriority(d1 - today, p, ts), RawPriority(d2 - today, p, ts);
      assert RawPriority(d1 - today, p1, ts) == r1;
      assert RawPriority(d2 - today, p2, ts) == r2;
      RawPriorityNonIncreasing(d1 - today, d2 - today, p, ts);
      RoundTenthMonotone(if r2 < 10.0 then r2 else 10.0, if r1 < 10.0 then r1 else 10.0);
    }
  }

  /** Neither the status nor the cached priority enters the score. */
  lemma PriorityIgnoresStatusAndCache(today: int, p: Project, ts: seq<Task>, st: Status, cached: real)
    ensures CalculatePriority(today, p.(status := st, priority := cached), ts) == CalculatePriority(today, p, ts)
  {
  }

  /** `project.setPriority(calculatePriority(project))`: the project with its
      cache refreshed, which then agrees with the engine on its own fields. */
  function Recomputed(today: int, p: Project, ts: seq<Task>): (q: Project)
    ensures q.priority == CalculatePriority(today, q, ts)
    ensures q.(priority := p.priority) == p
  {
    PriorityIgnoresStatusAndCache(today, p, ts, p.status, CalculatePriority(today, p, ts));
    p.(priority := CalculatePriority(today, p, ts))
  }

  /** Due in exactly 14 days, difficulty 5, no tasks: time pressure 1, workload
      5.5 (5 assumed hours), progress 5 and multiplier 1.25. A weight of 50 is
      clamped to an importance of 10, giving base 4.975, raw 6.21875 and
      priority 6.2; an importance of 5 (weight 5) gives base 3.475, raw 4.34375
      and priority 4.3. */
  lemma WorkedExample(today: int, p: Project)
    requires p.due == today + 14 && p.difficulty == 5
    ensures p.weight == 50.0 ==> CalculatePriority(today, p, []) == 6.2
    ensures p.weight == 5.0 ==> CalculatePriority(today, p, []) == 4.3
  {
    assert TimePressure(14) == 1.0;
    assert Workload(RemainingWork([])) == 5.5;
    assert ProgressScore([]) == 5.0;
    assert DifficultyMultiplier(5) == 1.25;
    if p.weight == 50.0 {
      assert BaseScore(1.0, 10.0, 5.5, 5.0) == 4.975;
      assert Boost(4.975, 1.25) == 6.21875;
      assert RawPriority(14, p, []) == 6.21875;
      RoundTenthUnique(6.21875, 62);
    } else if p.weight == 5.0 {
      assert BaseScore(1.0, 5.0, 5.5, 5.0) == 3.475;
      assert Boost(3.475, 1.25) == 4.34375;
      assert RawPriority(14, p, []) == 4.34375;
      RoundTenthUnique(4.34375, 43);
    }
  }

  /** The loop of `calculateRemainingWork`. */
  method ComputeRemainingWork(ts: seq<Task>) returns (total: real)
    ensures total == RemainingWork(ts)
  {
    if |ts| == 0 {
      return 5.0;
    }
    total := 0.0;
    var i := 0;
    while i < |ts|
      invariant 0 <= i <= |ts|
      invariant total == HoursLeft(ts[..i])
    {
      assert ts[..i + 1][..i] == ts[..i];
      if ts[i].status != Completed {
        total := total + ts[i].estimatedHours;
      }
      i := i + 1;
    }
    assert ts[..|ts|] == ts;
  }

  /** The loop of `calculateProgressScore`. */
  method ComputeProgressScore(ts: seq<Task>) returns (score: real)
    ensures score == ProgressScore(ts)
  {
    if |ts| == 0 {
      return 5.0;
    }
    var completed := 0;
    var i := 0;
    while i < |ts|
      invariant 0 <= i <= |ts|
      invariant completed == CompletedCount(ts[..i])
    {
      assert ts[..i + 1][..i] == ts[..i];
      if ts[i].status == Completed {
        completed := completed + 1;
      }
      i := i + 1;
    }
    assert ts[..|ts|] == ts;
    assert completed == CompletedCount(ts);
    score := (1.0 - completed as real / |ts| as real) * 10.0;
  }
}
